/** Derivation paths: the parser and the printer of hierarchical wallet paths. */
module DerivationPaths {
  import opened Options
  const HARDENED := 0x8000_0000
  const MAX_UINT32 := 0xFFFF_FFFF

  type Path = seq<nat>

  const DEFAULT_ROOT: Path := [HARDENED + 44, HARDENED + 52752, HARDENED + 0, 0]

  // ---- Strings ----

  /** The parts between separators; always at least one. */
  function Split(s: string, sep: char): (parts: seq<string>)
    ensures |parts| > 0
  {
    if s == "" then [""]
    else
      Longer(s[0], Split(s[1..], sep), sep)
  }

  /** The parts of a string, from its first character and the parts of the rest. */
  function Longer(c: char, parts: seq<string>, sep: char): (more: seq<string>)
    requires |parts| > 0
    ensures |more| > 0
  {
    if c == sep then [""] + parts else [[c] + parts[0]] + parts[1..]
  }

  /** White space as Unicode defines it. */
  predicate IsSpace(c: char) {
    || '\t' <= c <= '\r' || c == ' ' || c == '\U{85}' || c == '\U{A0}' || c == '\U{1680}'
    || '\U{2000}' <= c <= '\U{200A}' || c == '\U{2028}' || c == '\U{2029}' || c == '\U{202F}' || c == '\U{205F}'
       || c == '\U{3000}'
  }

  function TrimLeft(s: string): string {
    if s != "" && IsSpace(s[0]) then TrimLeft(s[1..]) else s
  }

  function TrimRight(s: string): string {
    if s != "" && IsSpace(s[|s| - 1]) then TrimRight(s[..|s| - 1]) else s
  }

  function TrimSpace(s: string): string {
    TrimRight(TrimLeft(s))
  }

  // ---- Integers of any base, as big.Int reads them with base 0 ----

  /** What was read before the current character. */
  datatype Previous = Digit | Separator | Other

  datatype Scan = Scan(value: nat, count: nat, badSeparator: bool, previous: Previous, rest: string)

  /** The value of a digit, or 36 for no digit. */
  function DigitValue(c: char): nat {
    if '0' <= c <= '9' then c as nat - '0' as nat
    else if 'a' <= c <= 'z' then c as nat - 'a' as nat + 10
    else if 'A' <= c <= 'Z' then c as nat - 'A' as nat + 10
    else 36
  }

  /** Reads digits of base `b` and underscores until neither comes. */
  function ScanDigits(s: string, b: nat, st: Scan): Scan
    decreases s
  {
    if s == "" then st.(rest := "")
    else if s[0] == '_' then ScanDigits(s[1..], b, st.(badSeparator := st.badSeparator || st.previous != Digit,
                                                       previous := Separator))
    else if DigitValue(s[0]) >= b then st.(rest := s)
    else ScanDigits(s[1..], b, st.(value := st.value * b + DigitValue(s[0]), count := st.count + 1, previous := Digit))
  }

  /** Reads an unsigned number with an optional base prefix; None is an error, otherwise the value and what is left. */
  function ScanNat(s: string): Option<(nat, string)> {
    if s == "" || s[0] != '0' then Finish(ScanDigits(s, 10, Scan(0, 0, false, Other, "")), false)
    else if |s| == 1 then Some((0, ""))
    else if s[1] == 'b' || s[1] == 'B' then Finish(ScanDigits(s[2..], 2, Scan(0, 0, false, Digit, "")), false)
    else if s[1] == 'o' || s[1] == 'O' then Finish(ScanDigits(s[2..], 8, Scan(0, 0, false, Digit, "")), false)
    else if s[1] == 'x' || s[1] == 'X' then Finish(ScanDigits(s[2..], 16, Scan(0, 0, false, Digit, "")), false)
    else Finish(ScanDigits(s[1..], 8, Scan(0, 0, false, Digit, "")), true)
  }

  /** A lone octal prefix counts as zero. */
  function Finish(st: Scan, octalPrefix: bool): Option<(nat, string)> {
    if st.count == 0 && octalPrefix then Some((0, st.rest))
    else if st.count == 0 || st.badSeparator || st.previous == Separator then None
    else Some((st.value, st.rest))
  }

  /** The whole string as a number with an optional sign. */
  function ParseInt(s: string): Option<int> {
    if s == "" then None
    else
      var signed := s[0] == '-' || s[0] == '+';
      var scanned := ScanNat(if signed then s[1..] else s);
      if scanned.None? || scanned.value.1 != "" then None
      else if s[0] == '-' then Some(0 - scanned.value.0) else Some(scanned.value.0)
  }

  // ---- The parser ----

  predicate HasQuote(c: string) {
    c != "" && c[|c| - 1] == '\''
  }

  /** One component: a number, hardened if a quote follows, in the range left for it in 32 bits. */
  function ParseComponent(component: string): (r: Option<nat>)
    ensures r.Some? ==> r.value <= MAX_UINT32
    ensures r.Some? && HasQuote(TrimSpace(component)) ==> r.value >= HARDENED
  {
    var c := TrimSpace(component);
    var base := if HasQuote(c) then HARDENED else 0;
    var number := ParseInt(if HasQuote(c) then TrimSpace(c[..|c| - 1]) else c);
    if number.None? || number.value < 0 || number.value > MAX_UINT32 - base then None
    else Some(base + number.value)
  }

  function ParseComponents(cs: seq<string>): Option<Path> {
    if cs == [] then Some([])
    else
      var n := |cs| - 1;
      var before, last := ParseComponents(cs[..n]), ParseComponent(cs[n]);
      if before.Some? && last.Some? then Some(before.value + [last.value]) else None
  }

  /** Absolute paths start with `m`, relative ones continue the default root. */
  function Parse(s: string): Option<Path> {
    var cs := Split(s, '/');
    if TrimSpace(cs[0]) == "" then None
    else if TrimSpace(cs[0]) == "m" then (if |cs| == 1 then None else ParseComponents(cs[1..]))
    else
      var relative := ParseComponents(cs);
      if relative.None? then None else Some(DEFAULT_ROOT + relative.value)
  }

  method ParseDerivationPath(s: string) returns (r: Option<Path>)
    ensures r == Parse(s)
  {
    hide Split, TrimSpace, ParseComponent;
    var components := Split(s, '/');
    var result: Path := [];
    if TrimSpace(components[0]) == "" {
      return None;
    } else if TrimSpace(components[0]) == "m" {
      components := components[1..];
    } else {
      result := DEFAULT_ROOT;
    }
    if |components| == 0 {
      return None;
    }
    r := AppendComponents(components, result);
    if r.Some? {
      assert [] + ParseComponents(components).value == ParseComponents(components).value;
    }
  }

  method AppendComponents(components: seq<string>, start: Path) returns (r: Option<Path>)
    ensures r == if ParseComponents(components).None? then None else Some(start + ParseComponents(components).value)
  {
    hide ParseComponent;
    var result := start;
    for i := 0 to |components|
      invariant ParseComponents(components[..i]).Some? && result == start + ParseComponents(components[..i]).value
    {
      assert components[..i + 1][..i] == components[..i];
      var value := CheckComponent(components[i]);
      if value.None? {
        Fails(components, i);
        return None;
      }
      result := result + [value.value];
    }
    assert components[..|components|] == components;
    return Some(result);
  }

  method CheckComponent(part: string) returns (r: Option<nat>)
    ensures r == ParseComponent(part)
  {
    hide TrimSpace, ParseInt;
    var component := TrimSpace(part);
    var value := 0;
    if HasQuote(component) {
      value := HARDENED;
      component := TrimSpace(component[..|component| - 1]);
    }
    var bigval := ParseInt(component);
    if bigval.None? {
      return None;
    }
    var max := MAX_UINT32 - value;
    if bigval.value < 0 || bigval.value > max {
      return None;
    }
    value := value + bigval.value;
    return Some(value);
  }

  lemma {:induction false} Fails(cs: seq<string>, i: nat)
    requires i < |cs| && ParseComponent(cs[i]).None?
    ensures ParseComponents(cs).None?
    decreases |cs|
  {
    if i < |cs| - 1 {
      Fails(cs[..|cs| - 1], i);
    }
  }

  lemma {:induction false} ComponentsFit(cs: seq<string>)
    ensures ParseComponents(cs).Some? ==>
              |ParseComponents(cs).value| == |cs| && forall v | v in ParseComponents(cs).value :: v <= MAX_UINT32
    decreases |cs|
  {
    if cs != [] {
      ComponentsFit(cs[..|cs| - 1]);
    }
  }

  // ---- The printer ----

  function Decimal(n: nat): (s: string)
    ensures s != "" && (forall c | c in s :: '0' <= c <= '9') && (s[0] == '0' <==> n == 0) && (n == 0 ==> s == "0")
  {
    if n < 10 then [(n + '0' as nat) as char]
    else
      var digit := (n % 10 + '0' as nat) as char;
      Decimal(n / 10) + [digit]
  }

  function Component(n: nat): string {
    if n >= HARDENED then Decimal(n - HARDENED) + "'" else Decimal(n)
  }

  function ToString(path: Path): string {
    if path == [] then "m" else ToString(path[..|path| - 1]) + "/" + Component(path[|path| - 1])
  }

  method Print(path: Path) returns (result: string)
    ensures result == ToString(path)
  {
    result := "m";
    for i := 0 to |path|
      invariant result == ToString(path[..i])
    {
      assert path[..i + 1][..i] == path[..i];
      var component, hardened := path[i], false;
      if component >= HARDENED {
        component, hardened := component - HARDENED, true;
      }
      result := result + "/" + Decimal(component);
      if hardened {
        result := result + "'";
      }
    }
    assert path[..|path|] == path;
  }

  // ---- Round trip ----

  lemma {:induction false} SplitFree(s: string, sep: char)
    requires sep !in s
    ensures Split(s, sep) == [s]
    decreases |s|
  {
    if s != "" {
      SplitFree(s[1..], sep);
      assert s == [s[0]] + s[1..];
    }
  }

  /** Joining with a separator joins the parts. */
  lemma {:induction false} SplitJoined(s: string, t: string, sep: char)
    ensures Split(s + [sep] + t, sep) == Split(s, sep) + Split(t, sep)
    decreases |s|
  {
    var whole := s + [sep] + t;
    if s == "" {
      assert whole[1..] == t;
    } else {
      SplitJoined(s[1..], t, sep);
      assert whole[0] == s[0] && whole[1..] == s[1..] + [sep] + t;
      OneCharMore(s[0], Split(s[1..], sep), Split(t, sep), sep);
      hide *;
      SplitUnfolds(whole, sep);
      SplitUnfolds(s, sep);
    }
  }

  lemma SplitUnfolds(s: string, sep: char)
    requires s != ""
    ensures Split(s, sep) == Longer(s[0], Split(s[1..], sep), sep)
  {
  }

  lemma OneCharMore(c: char, front: seq<string>, back: seq<string>, sep: char)
    requires |front| > 0
    ensures Longer(c, front + back, sep) == Longer(c, front, sep) + back
  {
    assert (front + back)[1..] == front[1..] + back;
  }

  lemma NoSlash(n: nat)
    ensures '/' !in Component(n) && Component(n) != ""
  {
  }

  function Components(path: Path): seq<string> {
    if path == [] then [] else Components(path[..|path| - 1]) + [Component(path[|path| - 1])]
  }

  lemma {:induction false} SplitPrinted(path: Path)
    ensures Split(ToString(path), '/') == ["m"] + Components(path)
    decreases |path|
  {
    if path == [] {
      SplitFree("m", '/');
    } else {
      var init, last := path[..|path| - 1], path[|path| - 1];
      SplitPrinted(init);
      NoSlash(last);
      SplitJoined(ToString(init), Component(last), '/');
      SplitFree(Component(last), '/');
      assert ToString(path) == ToString(init) + ['/'] + Component(last);
    }
  }

  lemma TrimsToSelf(s: string)
    requires s != "" ==> !IsSpace(s[0]) && !IsSpace(s[|s| - 1])
    ensures TrimSpace(s) == s
  {
  }

  // ---- Numbers in any base ----

  function DigitChar(d: nat): (c: char)
    requires d < 36
    ensures c != '_' && DigitValue(c) == d
  {
    if d < 10 then (d + '0' as nat) as char else (d - 10 + 'a' as nat) as char
  }

  /** The digits of a number, highest first. */
  function Digits(n: nat, b: nat): (s: string)
    requires 2 <= b <= 36
    ensures s != ""
  {
    if n < b then [DigitChar(n)] else Digits(n / b, b) + [DigitChar(n % b)]
  }

  ghost predicate AreDigits(s: string, b: nat) {
    forall c | c in s :: c != '_' && DigitValue(c) < b
  }

  lemma {:induction false} DigitsAre(n: nat, b: nat)
    requires 2 <= b <= 36
    ensures AreDigits(Digits(n, b), b)
    decreases n
  {
    hide DigitValue, DigitChar;
    if n >= b {
      DivMod(n, b);
      DigitsAre(n / b, b);
      MoreDigits(Digits(n / b, b), DigitChar(n % b), b);
    }
  }

  lemma MoreDigits(s: string, c: char, b: nat)
    requires AreDigits(s, b) && c != '_' && DigitValue(c) < b
    ensures AreDigits(s + [c], b)
  {
    hide DigitValue;
  }

  lemma {:induction false} DecimalDigits(n: nat)
    ensures Decimal(n) == Digits(n, 10)
  {
    if n >= 10 { DecimalDigits(n / 10); }
  }

  /** Reading digits back gives the number. */
  lemma {:induction false} ScanPrinted(n: nat, b: nat, st: Scan)
    requires 2 <= b <= 36
    ensures var r := ScanDigits(Digits(n, b), b, st);
            r.value == st.value * Power(b, |Digits(n, b)|) + n && r.count == st.count + |Digits(n, b)|
            && r.previous == Digit && r.badSeparator == st.badSeparator && r.rest == ""
    decreases n
  {
    hide DigitChar, DigitValue, Power;
    if n < b {
      ScanAppend("", DigitChar(n), b, st);
      PowerOne(b);
      assert "" + [DigitChar(n)] == [DigitChar(n)];
    } else {
      var front, digit := Digits(n / b, b), DigitChar(n % b);
      DivMod(n, b);
      DigitsAre(n / b, b);
      ScanPrinted(n / b, b, st);
      ScanAppend(front, digit, b, st);
      PowerMore(b, |front|);
      assert Digits(n, b) == front + [digit];
      Shifted(st.value, Power(b, |front|), n / b, b, n % b);
    }
  }

  lemma DivMod(n: nat, b: nat)
    requires b >= 2
    ensures n / b * b + n % b == n && (n > 0 ==> n / b < n)
  {
  }

  lemma PowerOne(b: nat)
    ensures Power(b, 1) == b
  {
    assert Power(b, 0) == 1;
  }

  lemma PowerMore(b: nat, k: nat)
    ensures Power(b, k + 1) == b * Power(b, k)
  {
  }

  lemma Shifted(v: nat, p: nat, q: nat, b: nat, d: nat)
    ensures (v * p + q) * b + d == v * (b * p) + (q * b + d)
  {
    assert (v * p + q) * b == v * p * b + q * b;
    assert v * p * b == v * (b * p);
  }

  function Power(b: nat, k: nat): nat {
    if k == 0 then 1 else b * Power(b, k - 1)
  }

  /** Scanning digits and then one more digit. */
  lemma {:induction false} ScanAppend(s: string, digit: char, b: nat, st: Scan)
    requires AreDigits(s, b) && digit != '_' && DigitValue(digit) < b
    ensures var r := ScanDigits(s, b, st);
            ScanDigits(s + [digit], b, st) ==
            r.(value := r.value * b + DigitValue(digit), count := r.count + 1, previous := Digit, rest := "")
    decreases |s|
  {
    hide DigitValue;
    if s == "" {
      assert (s + [digit])[1..] == "";
    } else {
      assert (s + [digit])[1..] == s[1..] + [digit];
      assert s[0] in s && forall c | c in s[1..] :: c in s;
      ScanAppend(s[1..], digit, b,
                 st.(value := st.value * b + DigitValue(s[0]), count := st.count + 1, previous := Digit));
    }
  }

  lemma IntOfDecimal(n: nat)
    ensures ParseInt(Decimal(n)) == Some(n)
  {
    var s := Decimal(n);
    assert s[0] in s;
    if n == 0 {
      assert ScanNat("0") == Some((0, ""));
    } else {
      DecimalDigits(n);
      ScanPrinted(n, 10, Scan(0, 0, false, Other, ""));
    }
  }

  /** A number written with a base prefix is read in that base; a leading zero means octal. */
  lemma IntOfPrefixed(n: nat)
    ensures ParseInt("0x" + Digits(n, 16)) == ParseInt("0X" + Digits(n, 16)) == Some(n)
    ensures ParseInt("0o" + Digits(n, 8)) == ParseInt("0O" + Digits(n, 8)) == ParseInt("0" + Digits(n, 8)) == Some(n)
    ensures ParseInt("0b" + Digits(n, 2)) == ParseInt("0B" + Digits(n, 2)) == Some(n)
  {
    hide ScanDigits, Digits;
    var st := Scan(0, 0, false, Digit, "");
    ScanPrinted(n, 16, st);
    ScanPrinted(n, 8, st);
    ScanPrinted(n, 2, st);
    AfterPrefix("0x", Digits(n, 16));
    AfterPrefix("0X", Digits(n, 16));
    AfterPrefix("0o", Digits(n, 8));
    AfterPrefix("0O", Digits(n, 8));
    AfterPrefix("0b", Digits(n, 2));
    AfterPrefix("0B", Digits(n, 2));
    OctalDigit(n);
    assert ("0" + Digits(n, 8))[1..] == Digits(n, 8);
  }

  lemma AfterPrefix(prefix: string, s: string)
    requires |prefix| == 2
    ensures (prefix + s)[0] == prefix[0] && (prefix + s)[1] == prefix[1] && (prefix + s)[2..] == s
  {
  }

  lemma OctalDigit(n: nat)
    ensures Digits(n, 8)[0] !in "bBoOxX"
  {
    DigitsAre(n, 8);
    assert Digits(n, 8)[0] in Digits(n, 8);
  }

  /** A sign in front is read as such. */
  lemma IntOfSigned(n: nat)
    ensures ParseInt("-" + Decimal(n)) == Some(0 - n) && ParseInt("+" + Decimal(n)) == Some(n)
  {
    hide ScanNat, Decimal;
    IntOfDecimal(n);
    var s := Decimal(n);
    assert s[0] in s;
    assert ("-" + s)[1..] == s && ("+" + s)[1..] == s;
  }

  /** Without the underscores. */
  function Strip(s: string): string {
    if s == "" then "" else (if s[0] == '_' then "" else [s[0]]) + Strip(s[1..])
  }

  /** Underscores between digits do not change the number; one that does not follow a digit or the prefix, or that ends
      the number, spoils it. */
  lemma ScanSeparated(s: string, b: nat, st: Scan)
    requires forall c | c in s :: c == '_' || DigitValue(c) < b
    ensures var r, q := ScanDigits(s, b, st), ScanDigits(Strip(s), b, st);
            && r.value == q.value && r.count == q.count && r.rest == ""
            && (r.badSeparator <==> st.badSeparator || Misplaced(s, st.previous))
            && (s != "" ==> (r.previous == Separator <==> s[|s| - 1] == '_'))
  {
    ScanStripped(s, b, st);
    ScanFlags(s, b, st);
  }

  lemma {:induction false} ScanStripped(s: string, b: nat, st: Scan)
    requires forall c | c in s :: c == '_' || DigitValue(c) < b
    ensures var r, q := ScanDigits(s, b, st), ScanDigits(Strip(s), b, st); r.value == q.value && r.count == q.count
    decreases |s|
  {
    hide DigitValue;
    if s != "" {
      var rest := s[1..];
      assert s[0] in s && forall c | c in rest :: c in s;
      if s[0] == '_' {
        var st' := st.(badSeparator := st.badSeparator || st.previous != Digit, previous := Separator);
        ScanStripped(rest, b, st');
        assert Strip(s) == Strip(rest);
        SameNumber(Strip(rest), b, st, st');
      } else {
        var st' := st.(value := st.value * b + DigitValue(s[0]), count := st.count + 1, previous := Digit);
        ScanStripped(rest, b, st');
        assert Strip(s) == [s[0]] + Strip(rest);
        assert ScanDigits(Strip(s), b, st) == ScanDigits(Strip(rest), b, st');
      }
    }
  }

  lemma {:induction false} ScanFlags(s: string, b: nat, st: Scan)
    requires forall c | c in s :: c == '_' || DigitValue(c) < b
    ensures var r := ScanDigits(s, b, st);
            && r.rest == "" && (r.badSeparator <==> st.badSeparator || Misplaced(s, st.previous))
            && (s != "" ==> (r.previous == Separator <==> s[|s| - 1] == '_')) && (s == "" ==> r.previous == st.previous)
    decreases |s|
  {
    hide DigitValue, Misplaced;
    if s == "" {
      NoneMisplaced(st.previous);
    } else {
      var rest := s[1..];
      assert s[0] in s && forall c | c in rest :: c in s;
      var st' := if s[0] == '_' then st.(badSeparator := st.badSeparator || st.previous != Digit, previous := Separator)
                 else st.(value := st.value * b + DigitValue(s[0]), count := st.count + 1, previous := Digit);
      ScanFlags(rest, b, st');
      SeparatorsShift(s, st.previous, st'.previous);
    }
  }

  lemma NoneMisplaced(before: Previous)
    ensures !Misplaced("", before)
  {
  }

  lemma {:induction false} SameNumber(s: string, b: nat, st: Scan, st': Scan)
    requires st.value == st'.value && st.count == st'.count
    ensures ScanDigits(s, b, st).value == ScanDigits(s, b, st').value
    ensures ScanDigits(s, b, st).count == ScanDigits(s, b, st').count
    decreases |s|
  {
    hide DigitValue;
    if s != "" {
      if s[0] == '_' {
        SameNumber(s[1..], b, st.(badSeparator := st.badSeparator || st.previous != Digit, previous := Separator),
                   st'.(badSeparator := st'.badSeparator || st'.previous != Digit, previous := Separator));
      } else if DigitValue(s[0]) < b {
        SameNumber(s[1..], b, st.(value := st.value * b + DigitValue(s[0]), count := st.count + 1, previous := Digit),
                   st'.(value := st'.value * b + DigitValue(s[0]), count := st'.count + 1, previous := Digit));
      }
    }
  }

  ghost predicate Misplaced(s: string, before: Previous) {
    exists i | 0 <= i < |s| && s[i] == '_' :: if i == 0 then before != Digit else s[i - 1] == '_'
  }

  lemma SeparatorsShift(s: string, before: Previous, next: Previous)
    requires s != "" && next == (if s[0] == '_' then Separator else Digit)
    ensures Misplaced(s, before) <==> (s[0] == '_' && before != Digit) || Misplaced(s[1..], next)
  {
    var rest := s[1..];
    if Misplaced(s, before) {
      var i :| 0 <= i < |s| && s[i] == '_' && if i == 0 then before != Digit else s[i - 1] == '_';
      if i > 0 {
        MisplacedAt(rest, next, i - 1);
      }
    }
    if Misplaced(rest, next) {
      var i :| 0 <= i < |rest| && rest[i] == '_' && if i == 0 then next != Digit else rest[i - 1] == '_';
      MisplacedAt(s, before, i + 1);
    }
    if s[0] == '_' && before != Digit { MisplacedAt(s, before, 0); }
  }

  lemma MisplacedAt(s: string, before: Previous, i: nat)
    requires i < |s| && s[i] == '_' && if i == 0 then before != Digit else s[i - 1] == '_'
    ensures Misplaced(s, before)
  {
  }

  lemma ComponentBack(n: nat)
    requires n <= MAX_UINT32
    ensures ParseComponent(Component(n)) == Some(n)
  {
    hide ParseInt;
    var d := Decimal(if n >= HARDENED then n - HARDENED else n);
    assert d[0] in d && d[|d| - 1] in d;
    TrimsToSelf(d);
    TrimsToSelf(d + "'");
    IntOfDecimal(if n >= HARDENED then n - HARDENED else n);
    assert (d + "'")[..|d + "'"| - 1] == d;
  }

  lemma {:induction false} ComponentsBack(path: Path)
    requires forall i | 0 <= i < |path| :: path[i] <= MAX_UINT32
    ensures ParseComponents(Components(path)) == Some(path)
    decreases |path|
  {
    hide ParseComponent, Component;
    if path != [] {
      var init, last := path[..|path| - 1], path[|path| - 1];
      ComponentsBack(init);
      ComponentBack(last);
      assert Components(path) == Components(init) + [Component(last)];
      assert Components(path)[..|Components(path)| - 1] == Components(init);
      assert path == init + [last];
    }
  }

  /** Parsing the printed form gives the path back, exactly for the non-empty paths of 32-bit components. */
  lemma RoundTrip(path: Path)
    ensures Parse(ToString(path)) == Some(path) <==> path != [] && forall i | 0 <= i < |path| :: path[i] <= MAX_UINT32
  {
    hide ParseComponents, Split;
    SplitPrinted(path);
    TrimsToSelf("m");
    var cs := Split(ToString(path), '/');
    assert cs[1..] == Components(path);
    if path == [] {
      assert Components(path) == [];
    } else {
      assert |Components(path)| > 0;
      if forall i | 0 <= i < |path| :: path[i] <= MAX_UINT32 {
        ComponentsBack(path);
      } else if Parse(ToString(path)).Some? {
        AcceptedFits(ToString(path));
      }
    }
  }

  /** Every accepted component fits 32 bits, and a path is never empty. */
  lemma AcceptedFits(s: string)
    requires Parse(s).Some?
    ensures Parse(s).value != [] && forall i | 0 <= i < |Parse(s).value| :: Parse(s).value[i] <= MAX_UINT32
  {
    hide ParseComponent, Split, TrimSpace;
    var cs := Split(s, '/');
    ComponentsFit(cs);
    ComponentsFit(cs[1..]);
    var p := Parse(s).value;
    forall i | 0 <= i < |p|
      ensures p[i] <= MAX_UINT32
    {
      if TrimSpace(cs[0]) == "m" {
        assert p[i] in ParseComponents(cs[1..]).value;
      } else if i >= |DEFAULT_ROOT| {
        assert p[i] in ParseComponents(cs).value;
      }
    }
  }

  /** Different 32-bit paths print differently. */
  lemma PrintInjective(p: Path, q: Path)
    requires forall i | 0 <= i < |p| :: p[i] <= MAX_UINT32
    requires forall i | 0 <= i < |q| :: q[i] <= MAX_UINT32
    requires ToString(p) == ToString(q)
    ensures p == q
  {
    hide Parse;
    RoundTrip(p);
    RoundTrip(q);
    if p == [] || q == [] {
      SplitPrinted(p);
      SplitPrinted(q);
      assert |Components(p)| == |Components(q)|;
    }
  }

  /** Printing normalises: what was parsed is parsed again from its printed form. */
  lemma NormalForm(s: string)
    requires Parse(s).Some?
    ensures Parse(ToString(Parse(s).value)) == Parse(s)
  {
    hide Parse, ToString;
    AcceptedFits(s);
    RoundTrip(Parse(s).value);
  }

  // ---- What a path may look like ----

  lemma {:induction false} ComponentsJoined(cs: seq<string>, ds: seq<string>)
    ensures var p, q := ParseComponents(cs), ParseComponents(ds);
            ParseComponents(cs + ds) == if p.Some? && q.Some? then Some(p.value + q.value) else None
    decreases |ds|
  {
    hide ParseComponent;
    if ds == [] {
      assert cs + ds == cs;
      if ParseComponents(cs).Some? { assert ParseComponents(cs).value + [] == ParseComponents(cs).value; }
    } else {
      ComponentsJoined(cs, ds[..|ds| - 1]);
      assert (cs + ds)[..|cs + ds| - 1] == cs + ds[..|ds| - 1] && (cs + ds)[|cs + ds| - 1] == ds[|ds| - 1];
      var p, q, last := ParseComponents(cs), ParseComponents(ds[..|ds| - 1]), ParseComponent(ds[|ds| - 1]);
      if p.Some? && q.Some? && last.Some? {
        assert p.value + q.value + [last.value] == p.value + (q.value + [last.value]);
      }
    }
  }

  lemma RootComponents()
    ensures Component(HARDENED + 44) == "44'" && Component(HARDENED + 52752) == "52752'" && Component(HARDENED) == "0'"
    ensures Component(0) == "0"
  {
    assert Decimal(52752) == "52752" by {
      assert Decimal(5) == "5" && Decimal(52) == "52" && Decimal(527) == "527" && Decimal(5275) == "5275";
    }
    assert Decimal(44) == "44" by { assert Decimal(4) == "4"; }
    assert Decimal(0) == "0";
    hide Decimal;
    assert "44" + "'" == "44'" && "52752" + "'" == "52752'" && "0" + "'" == "0'";
  }

  lemma DefaultRootPrinted()
    ensures ToString(DEFAULT_ROOT) == "m/44'/52752'/0'/0"
  {
    RootComponents();
    hide Component;
    assert DEFAULT_ROOT[..3] == [HARDENED + 44, HARDENED + 52752, HARDENED + 0];
    assert DEFAULT_ROOT[..3][..2] == [HARDENED + 44, HARDENED + 52752];
    assert DEFAULT_ROOT[..3][..2][..1] == [HARDENED + 44];
    assert ToString([HARDENED + 44]) == "m/44'";
    assert ToString(DEFAULT_ROOT[..3][..2]) == "m/44'/52752'";
    assert ToString(DEFAULT_ROOT[..3]) == "m/44'/52752'/0'";
  }

  /** A relative path means the default root followed by it. */
  lemma RelativeContinues(s: string)
    requires TrimSpace(Split(s, '/')[0]) !in {"", "m"}
    ensures Parse(s) == Parse("m/44'/52752'/0'/0/" + s)
  {
    hide ParseComponents, Split, TrimSpace, ToString, Components;
    var root := ToString(DEFAULT_ROOT);
    DefaultRootPrinted();
    SplitPrinted(DEFAULT_ROOT);
    SplitJoined(root, s, '/');
    assert root + ['/'] + s == "m/44'/52752'/0'/0/" + s;
    ComponentsBack(DEFAULT_ROOT);
    ComponentsJoined(Components(DEFAULT_ROOT), Split(s, '/'));
    var cs := Split("m/44'/52752'/0'/0/" + s, '/');
    assert cs[1..] == Components(DEFAULT_ROOT) + Split(s, '/');
    MTrims();
  }

  lemma MTrims()
    ensures TrimSpace("m") == "m"
  {
    TrimsToSelf("m");
  }

  /** A path that starts with a slash, or is just the root, is refused. */
  lemma RootsRefused(s: string)
    ensures Parse("/" + s).None? && Parse("").None? && Parse("m").None?
  {
    hide ParseComponents;
    assert ("/" + s)[1..] == s;
    SplitFree("m", '/');
    MTrims();
  }

  ghost predicate AllSpace(s: string) {
    forall c | c in s :: IsSpace(c)
  }

  /** Blanks, tabs and line ends are white space; no other printable ASCII character is. */
  lemma SpaceIsSpace(c: char)
    ensures c in " \t\n\r" ==> IsSpace(c)
    ensures '!' <= c <= '~' ==> !IsSpace(c)
  {
  }

  /** Trimming takes white space off both ends, and all of it. */
  lemma TrimMeans(s: string) returns (left: string, right: string)
    ensures s == left + TrimSpace(s) + right && AllSpace(left) && AllSpace(right)
    ensures TrimSpace(s) != "" ==> !IsSpace(TrimSpace(s)[0]) && !IsSpace(TrimSpace(s)[|TrimSpace(s)| - 1])
  {
    hide IsSpace;
    left := LeftTrimmed(s);
    right := RightTrimmed(TrimLeft(s));
  }

  lemma {:induction false} LeftTrimmed(s: string) returns (left: string)
    ensures s == left + TrimLeft(s) && AllSpace(left) && (TrimLeft(s) != "" ==> !IsSpace(TrimLeft(s)[0]))
    decreases |s|
  {
    if s != "" && IsSpace(s[0]) {
      var rest := LeftTrimmed(s[1..]);
      left := [s[0]] + rest;
      assert s == [s[0]] + s[1..];
    } else {
      left := "";
    }
  }

  lemma {:induction false} RightTrimmed(s: string) returns (right: string)
    ensures s == TrimRight(s) + right && AllSpace(right)
    ensures TrimRight(s) != "" ==> TrimRight(s)[0] == s[0] && !IsSpace(TrimRight(s)[|TrimRight(s)| - 1])
    decreases |s|
  {
    if s != "" && IsSpace(s[|s| - 1]) {
      var rest := RightTrimmed(s[..|s| - 1]);
      right := rest + [s[|s| - 1]];
      assert s == s[..|s| - 1] + [s[|s| - 1]];
    } else {
      right := "";
    }
  }

  /** A component is a number of 32 bits, or one of 31 bits and a quote, which sets the highest bit. */
  lemma ComponentRule(c: string)
    ensures var v := ParseInt(TrimSpace(c));
            && (!HasQuote(TrimSpace(c)) ==>
                  ParseComponent(c) == if v.Some? && 0 <= v.value < 0x1_0000_0000 then Some(v.value) else None)
            && ParseComponent(c + "'")
               == if v.Some? && 0 <= v.value < 0x8000_0000 then Some(v.value + 0x8000_0000) else None
  {
    hide ParseInt, TrimRight;
    QuotedTrim(c);
    TrimLeftTwice(c);
    var d := TrimLeft(c) + "'";
    assert d[..|d| - 1] == TrimLeft(c);
  }

  lemma {:induction false} QuotedTrim(c: string)
    ensures TrimSpace(c + "'") == TrimLeft(c) + "'"
    decreases |c|
  {
    if c != "" && IsSpace(c[0]) {
      QuotedTrim(c[1..]);
      assert (c + "'")[1..] == c[1..] + "'";
    }
  }

  lemma {:induction false} TrimLeftTwice(c: string)
    ensures TrimLeft(TrimLeft(c)) == TrimLeft(c)
    decreases |c|
  {
    if c != "" && IsSpace(c[0]) { TrimLeftTwice(c[1..]); }
  }
}
