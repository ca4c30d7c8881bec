/** ChainIndexer: sections of the canonical chain are processed in the background while the chain may change
    underneath. */
module ChainIndexers {
  import opened Options
  import opened Ancestry

  /** Headers by hash, now or ever; hash 0 stands for "no hash" and is the parent of block 0. */
  type Headers = imap<Hash, Header>

  ghost predicate Sound(all: Headers) {
    forall h | h in all :: h != 0 && all[h].hash == h && (all[h].number == 0 ==> all[h].parent == 0)
  }

  /** `k` parent steps from `h`. */
  ghost function Back(all: Headers, h: Hash, k: nat): Hash
    decreases k
  {
    if k == 0 then h else if h in all then Back(all, all[h].parent, k - 1) else 0
  }

  function HashAt(canon: Index, n: nat): Hash {
    if n in canon then canon[n] else 0
  }

  function SectionEnd(size: nat, section: nat): int {
    (section + 1) * size - 1
  }

  /** The stored heads are those of sections 0 to `stored - 1`, each the head one section before the next. */
  ghost predicate Linked(all: Headers, size: nat, heads: map<nat, Hash>, stored: nat) {
    && (forall i: nat :: i in heads <==> i < stored)
    && forall i: nat | i < stored :: LinkedAt(all, size, heads, i)
  }

  ghost predicate LinkedAt(all: Headers, size: nat, heads: map<nat, Hash>, i: nat)
    requires i in heads && (i > 0 ==> i - 1 in heads)
  {
    && heads[i] in all && all[heads[i]].number == SectionEnd(size, i)
    && Back(all, heads[i], size) == if i == 0 then 0 else heads[i - 1]
  }

  /** A canonical index whose entries are stored headers, each the parent of the next. */
  ghost predicate ChainIndex(all: Headers, canon: Index) {
    forall n | n in canon ::
      && canon[n] in all && all[canon[n]].number == n
      && (n > 0 ==> n - 1 in canon && all[canon[n]].parent == canon[n - 1])
  }

  /** The head of section `i` is the canonical block at the last height of that section. */
  ghost predicate OnChain(size: nat, heads: map<nat, Hash>, canon: Index, i: nat)
    requires size > 0 && i in heads
  {
    (i + 1) * size - 1 in canon && canon[(i + 1) * size - 1] == heads[i]
  }

  lemma {:induction false} ChainBack(all: Headers, canon: Index, n: nat, k: nat)
    requires ChainIndex(all, canon) && n in canon && k <= n
    ensures n - k in canon && Back(all, canon[n], k) == canon[n - k]
    decreases k
  {
    if k > 0 {
      ChainBack(all, canon, n - 1, k - 1);
    }
  }

  /** One canonical section head makes all earlier ones canonical. */
  lemma {:induction false} CanonicalDown(all: Headers, size: nat, heads: map<nat, Hash>, stored: nat, canon: Index,
                                         i: nat, j: nat)
    requires size > 0 && Sound(all) && Linked(all, size, heads, stored) && ChainIndex(all, canon)
    requires j <= i < stored && OnChain(size, heads, canon, i)
    ensures OnChain(size, heads, canon, j)
    decreases i
  {
    if j < i {
      assert LinkedAt(all, size, heads, i);
      assert SectionEnd(size, i) - size == SectionEnd(size, i - 1) by { SectionGap(size, i); }
      ChainBack(all, canon, SectionEnd(size, i), size);
      CanonicalDown(all, size, heads, stored, canon, i - 1, j);
    }
  }

  lemma SectionGap(size: nat, i: nat)
    requires size > 0 && i > 0
    ensures SectionEnd(size, i) - size == SectionEnd(size, i - 1) >= 0
  {
  }

  lemma LinkedCut(all: Headers, size: nat, heads: map<nat, Hash>, stored: nat, cut: map<nat, Hash>, left: nat)
    requires Linked(all, size, heads, stored) && left <= stored
    requires cut == map i | i in heads && !(left <= i < stored) :: heads[i]
    ensures Linked(all, size, cut, left) && Kept(heads, cut, left)
  {
    forall i: nat | i < left
      ensures LinkedAt(all, size, cut, i)
    {
      assert LinkedAt(all, size, heads, i);
    }
  }

  lemma LinkedMore(all: Headers, size: nat, heads: map<nat, Hash>, stored: nat, h: Hash)
    requires Linked(all, size, heads, stored)
    requires h in all && all[h].number == SectionEnd(size, stored)
    requires Back(all, h, size) == if stored == 0 then 0 else heads[stored - 1]
    ensures Linked(all, size, heads[stored := h], stored + 1)
  {
    var more := heads[stored := h];
    forall i: nat | i < stored + 1
      ensures LinkedAt(all, size, more, i)
    {
      if i < stored { assert LinkedAt(all, size, heads, i); }
    }
  }

  lemma LinkedKeys(all: Headers, size: nat, heads: map<nat, Hash>, stored: nat)
    requires Linked(all, size, heads, stored)
    ensures forall i: nat :: i in heads <==> i < stored
    ensures stored > 0 ==> heads[stored - 1] in all
  {
    if stored > 0 { assert LinkedAt(all, size, heads, stored - 1); }
  }

  /** The first `n` section heads are as they were. */
  ghost predicate Kept(before: map<nat, Hash>, after: map<nat, Hash>, n: nat) {
    forall i: nat | i < n :: i in before && i in after && after[i] == before[i]
  }

  /** No section head from `from` to `to` is canonical. */
  ghost predicate OffChain(size: nat, heads: map<nat, Hash>, canon: Index, from: nat, to: nat)
    requires size > 0
  {
    forall i: nat | from <= i < to :: i in heads && !OnChain(size, heads, canon, i)
  }

  ghost predicate AllOnChain(size: nat, heads: map<nat, Hash>, canon: Index, n: nat)
    requires size > 0
  {
    forall i: nat | i < n :: i in heads && OnChain(size, heads, canon, i)
  }

  lemma AllKept(size: nat, heads: map<nat, Hash>, canon: Index, stored: nat)
    requires size > 0 && forall i: nat :: i in heads <==> i < stored
    ensures Kept(heads, heads, stored) && OffChain(size, heads, canon, stored, stored)
  {
  }

  /** One more section off the chain is dropped. */
  lemma OneLess(size: nat, heads0: map<nat, Hash>, before: map<nat, Hash>, after: map<nat, Hash>, canon: Index,
                stored: nat, stored0: nat)
    requires size > 0 && Kept(heads0, before, stored + 1) && Kept(before, after, stored)
    requires OffChain(size, heads0, canon, stored + 1, stored0)
    requires before[stored] != HashAt(canon, (stored + 1) * size - 1)
    ensures Kept(heads0, after, stored) && OffChain(size, heads0, canon, stored, stored0)
  {
  }

  lemma LastIsOn(size: nat, heads: map<nat, Hash>, canon: Index, stored: nat)
    requires size > 0
    requires stored > 0 ==> stored - 1 in heads && heads[stored - 1] == HashAt(canon, stored * size - 1) != 0
    ensures stored > 0 ==> OnChain(size, heads, canon, stored - 1)
  {
  }

  lemma LastDecides(all: Headers, size: nat, heads: map<nat, Hash>, stored: nat, canon: Index)
    requires size > 0 && Sound(all) && Linked(all, size, heads, stored) && ChainIndex(all, canon)
    requires stored > 0 ==> stored - 1 in heads && OnChain(size, heads, canon, stored - 1)
    ensures AllOnChain(size, heads, canon, stored)
  {
    forall i: nat | i < stored
      ensures i in heads && OnChain(size, heads, canon, i)
    {
      CanonicalDown(all, size, heads, stored, canon, stored - 1, i);
    }
  }

  /** A section being processed: `lastHead` is the header before `number`, reached by parent steps from `oldHead`. */
  datatype Job = Job(section: nat, oldHead: Hash, number: nat, lastHead: Hash, failed: bool)

  ghost predicate Working(all: Headers, size: nat, stored: nat, job: Job) {
    var done := job.number - job.section * size;
    && stored <= job.section && 0 <= done <= size
    && (job.section == 0 ==> job.oldHead == 0)
    && (job.section > 0 ==> job.oldHead != 0)
    && Back(all, job.lastHead, done) == job.oldHead
    && (done > 0 ==> job.lastHead in all && all[job.lastHead].number == job.number - 1)
  }

  class ChainIndexer {
    ghost const all: Headers
    const sectionSize: nat
    const confirmsReq: nat
    var storedSections: nat
    var knownSections: nat
    var cascadedHead: int
    var heads: map<nat, Hash>
    var job: Option<Job>

    ghost predicate Valid()
      reads this
    {
      && sectionSize > 0 && Sound(all) && Linked(all, sectionSize, heads, storedSections)
      && (job.Some? ==> Working(all, sectionSize, storedSections, job.value))
    }

    constructor (size: nat, confirms: nat, ghost all: Headers)
      requires size > 0 && Sound(all)
      ensures Valid() && sectionSize == size && confirmsReq == confirms && this.all == all
      ensures storedSections == 0 && knownSections == 0 && job == None
    {
      sectionSize, confirmsReq, this.all := size, confirms, all;
      storedSections, knownSections, cascadedHead := 0, 0, 0;
      heads, job := map[], None;
    }

    function SectionHead(section: int): Hash
      reads this
    {
      if section in heads then heads[section] else 0
    }

    /** Drops every section from `sections` on. */
    method SetValidSections(sections: nat)
      requires forall i: nat | i < storedSections :: i in heads
      modifies `storedSections, `heads
      ensures storedSections == sections
      ensures heads == map i | i in old(heads) && !(sections <= i < old(storedSections)) :: old(heads)[i]
    {
      while storedSections > sections
        invariant storedSections <= old(storedSections)
                  && (storedSections < sections ==> storedSections == old(storedSections))
        invariant heads == map i | i in old(heads) && !(storedSections <= i < old(storedSections)) :: old(heads)[i]
      {
        storedSections := storedSections - 1;
        heads := heads - {storedSections};
      }
      storedSections := sections;
    }

    /** Announces a new head, or a reorganisation down to `head`. */
    method NewHead(head: nat, reorg: bool) returns (notify: bool, cascade: Option<int>)
      requires Valid()
      modifies `storedSections, `knownSections, `cascadedHead, `heads
      ensures Valid()
      ensures reorg ==>
                var known := (head + 1) / sectionSize;
                && !notify && knownSections == (if known < old(knownSections) then known else old(knownSections))
                && storedSections == (if known < old(storedSections) then known else old(storedSections))
                && Kept(old(heads), heads, storedSections)
                && (if known * sectionSize < old(cascadedHead)
                    then cascadedHead == known * sectionSize && cascade == Some(cascadedHead)
                    else cascadedHead == old(cascadedHead) && cascade == None)
      ensures !reorg ==>
                var sections := if head >= confirmsReq then (head + 1 - confirmsReq) / sectionSize else 0;
                && knownSections == (if sections > old(knownSections) then sections else old(knownSections))
                && notify == (sections > old(knownSections))
                && storedSections == old(storedSections) && heads == old(heads) && cascadedHead == old(cascadedHead)
                && cascade == None
    {
      hide Linked;
      notify, cascade := false, None;
      if reorg {
        var known := (head + 1) / sectionSize;
        if known < knownSections {
          knownSections := known;
        }
        LinkedKeys(all, sectionSize, heads, storedSections);
        if known < storedSections {
          SetValidSections(known);
          LinkedCut(all, sectionSize, old(heads), old(storedSections), heads, storedSections);
        }
        var end := known * sectionSize;
        if end < cascadedHead {
          cascadedHead := end;
          cascade := Some(cascadedHead);
        }
        return;
      }
      if head >= confirmsReq {
        var sections := (head + 1 - confirmsReq) / sectionSize;
        if sections > knownSections {
          knownSections := sections;
          notify := true;
        }
      }
    }

    /** Rolls back stored sections until the last one is canonical: on a parent-linked chain, exactly the canonical
        sections stay. */
    method VerifyLastHead(canon: Index)
      requires Valid()
      modifies `storedSections, `heads
      ensures Valid() && storedSections <= old(storedSections) && Kept(old(heads), heads, storedSections)
      ensures OffChain(sectionSize, old(heads), canon, storedSections, old(storedSections))
      ensures ChainIndex(all, canon) ==> AllOnChain(sectionSize, heads, canon, storedSections)
    {
      hide Linked, ChainIndex, AllOnChain, Kept, OffChain, OnChain;
      LinkedKeys(all, sectionSize, heads, storedSections);
      AllKept(sectionSize, heads, canon, storedSections);
      while storedSections > 0 && SectionHead(storedSections - 1) != HashAt(canon, storedSections * sectionSize - 1)
        invariant Valid() && storedSections <= old(storedSections) && Kept(old(heads), heads, storedSections)
        invariant OffChain(sectionSize, old(heads), canon, storedSections, old(storedSections))
      {
        LinkedKeys(all, sectionSize, heads, storedSections);
        ghost var before := heads;
        SetValidSections(storedSections - 1);
        LinkedCut(all, sectionSize, before, storedSections + 1, heads, storedSections);
        OneLess(sectionSize, old(heads), before, heads, canon, storedSections, old(storedSections));
      }
      LinkedKeys(all, sectionSize, heads, storedSections);
      LastIsOn(sectionSize, heads, canon, storedSections);
      if ChainIndex(all, canon) {
        LastDecides(all, sectionSize, heads, storedSections, canon);
      }
    }

    /** Takes up the next section, if one is known, with the mutex held. */
    method Begin(canon: Index)
      requires Valid() && job.None?
      modifies `storedSections, `heads, `job
      ensures Valid()
      ensures job.Some? <==> old(knownSections) > old(storedSections)
      ensures job.Some? ==>
                job.value.section == storedSections && !job.value.failed
                  && job.value.number == storedSections * sectionSize
      ensures job.Some? ==>
                job.value.lastHead == job.value.oldHead
                  == (if storedSections == 0 then 0 else SectionHead(storedSections - 1))
      ensures storedSections <= old(storedSections) && Kept(old(heads), heads, storedSections)
      ensures job.Some? ==> OffChain(sectionSize, old(heads), canon, storedSections, old(storedSections))
                            && (ChainIndex(all, canon) ==> AllOnChain(sectionSize, heads, canon, storedSections))
    {
      if knownSections > storedSections {
        hide Linked, Kept, OffChain, AllOnChain, ChainIndex;
        VerifyLastHead(canon);
        var section := storedSections;
        var oldHead := 0;
        if section > 0 {
          oldHead := SectionHead(section - 1);
          LinkedKeys(all, sectionSize, heads, storedSections);
        }
        job := Some(Job(section, oldHead, section * sectionSize, oldHead, false));
      }
    }

    /** The backend failed to reset: every section is dropped. */
    method ResetFailed()
      requires Valid() && job.Some?
      modifies `storedSections, `heads, `job
      ensures Valid() && storedSections == 0 && heads == map[] && job == Some(old(job).value.(failed := true))
    {
      SetValidSections(0);
      job := Some(job.value.(failed := true));
    }

    /** Processes the next header of the section, without the mutex: the chain is whatever it is at this moment. */
    method Process(canon: Index, db: Store, backendOk: bool)
      requires Valid() && job.Some? && !job.value.failed && job.value.number < (job.value.section + 1) * sectionSize
      requires forall h | h in db :: h in all && all[h] == db[h]
      modifies `job
      ensures Valid() && job.Some? && job.value.section == old(job).value.section
      ensures job.value.oldHead == old(job).value.oldHead
      ensures var n := old(job).value.number;
              if n in canon && canon[n] in db && db[canon[n]].number == n
                && db[canon[n]].parent == old(job).value.lastHead && backendOk
              then !job.value.failed && job.value.number == n + 1 && job.value.lastHead == canon[n]
              else job.value.failed
    {
      var j := job.value;
      var hash := HashAt(canon, j.number);
      if hash == 0 {
        job := Some(j.(failed := true));
        return;
      }
      if hash !in db || db[hash].number != j.number {
        job := Some(j.(failed := true));
        return;
      } else if db[hash].parent != j.lastHead {
        job := Some(j.(failed := true));
        return;
      }
      if !backendOk {
        job := Some(j.(failed := true));
        return;
      }
      assert Back(all, hash, j.number + 1 - j.section * sectionSize)
             == Back(all, j.lastHead, j.number - j.section * sectionSize);
      job := Some(j.(number := j.number + 1, lastHead := db[hash].hash));
    }

    /** Ends the section, with the mutex held again: it is stored unless processing failed or its predecessor went
        away. */
    method Finish(commitOk: bool, canon: Index) returns (cascade: Option<int>)
      requires Valid() && job.Some? && (job.value.failed || job.value.number == (job.value.section + 1) * sectionSize)
      modifies `storedSections, `knownSections, `cascadedHead, `heads, `job
      ensures Valid() && job.None?
      ensures var j := old(job).value;
              if !j.failed && commitOk
                && (j.section == 0 || (j.section == old(storedSections) && j.oldHead == old(heads)[j.section - 1]))
              then && old(storedSections) == j.section && storedSections == j.section + 1
                   && heads == old(heads)[j.section := j.lastHead]
                   && cascade == Some(SectionEnd(sectionSize, j.section))
                   && cascadedHead == SectionEnd(sectionSize, j.section)
                   && knownSections == old(knownSections)
              else && storedSections <= old(storedSections) && knownSections == storedSections && cascade == None
                   && cascadedHead == old(cascadedHead)
                   && Kept(old(heads), heads, storedSections)
                   && OffChain(sectionSize, old(heads), canon, storedSections, old(storedSections))
                   && (ChainIndex(all, canon) ==> AllOnChain(sectionSize, heads, canon, storedSections))
    {
      hide Linked, Kept, OffChain, AllOnChain, ChainIndex;
      var j := job.value;
      cascade := None;
      job := None;
      LinkedKeys(all, sectionSize, heads, storedSections);
      if !j.failed && commitOk && (j.section == 0 || j.oldHead == SectionHead(j.section - 1)) {
        LinkedMore(all, sectionSize, heads, storedSections, j.lastHead);
        heads := heads[j.section := j.lastHead];
        SetValidSections(j.section + 1);
        assert heads == old(heads)[j.section := j.lastHead];
        cascadedHead := storedSections * sectionSize - 1;
        cascade := Some(cascadedHead);
      } else {
        VerifyLastHead(canon);
        knownSections := storedSections;
      }
    }
  }

  /** Everything that can happen to an indexer, in any order; each event carries the chain as it is at that moment. */
  datatype Event =
    | Head(head: nat, reorg: bool)
    | Take(canon: Index)
    | ResetFails
    | Next(canon: Index, db: Store, backendOk: bool)
    | End(commitOk: bool, canon: Index)
    | Ask(canon: Index)

  /** Over every interleaving the stored heads stay linked, and checking the last one against the final chain leaves
      exactly canonical sections. */
  method Run(size: nat, confirms: nat, ghost all: Headers, events: seq<Event>, canon: Index) returns (c: ChainIndexer)
    requires size > 0 && Sound(all)
    requires forall e, h | e in events && e.Next? && h in e.db :: h in all && all[h] == e.db[h]
    ensures fresh(c) && c.Valid() && c.sectionSize == size && c.all == all
    ensures ChainIndex(all, canon) ==> AllOnChain(size, c.heads, canon, c.storedSections)
  {
    hide Linked, Working, ChainIndex, AllOnChain, OffChain, Kept;
    c := new ChainIndexer(size, confirms, all);
    for i := 0 to |events|
      invariant fresh(c) && c.Valid() && c.sectionSize == size && c.all == all
    {
      Happen(c, events[i]);
    }
    c.VerifyLastHead(canon);
  }

  /** One event, where it can happen at all. */
  method Happen(c: ChainIndexer, e: Event)
    requires c.Valid() && (e.Next? ==> forall h | h in e.db :: h in c.all && c.all[h] == e.db[h])
    modifies c
    ensures c.Valid()
  {
    hide Linked, Working, ChainIndex, AllOnChain, OffChain, Kept;
    match e
    case Head(head, reorg) =>
      var _, _ := c.NewHead(head, reorg);
    case Take(canon) =>
      if c.job.None? { c.Begin(canon); }
    case ResetFails =>
      if c.job.Some? && !c.job.value.failed && c.job.value.number == c.job.value.section * c.sectionSize {
        c.ResetFailed();
      }
    case Next(canon, db, backendOk) =>
      if c.job.Some? && !c.job.value.failed && c.job.value.number < (c.job.value.section + 1) * c.sectionSize {
        c.Process(canon, db, backendOk);
      }
    case End(commitOk, canon) =>
      if c.job.Some? && (c.job.value.failed || c.job.value.number == (c.job.value.section + 1) * c.sectionSize) {
        var _ := c.Finish(commitOk, canon);
      }
    case Ask(canon) =>
      c.VerifyLastHead(canon);
  }
}
