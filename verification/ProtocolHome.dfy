/**
 * The upsert takes what it finds at its second load of a slot for its own record. That is right as long as no two
 * calls under way insert different prefixes that share a slot of a root bucket; then no update is lost.
 */
module ProtocolHome {
  import opened Af
  import opened Records
  import opened Chain
  import opened PrefixStores
  import opened Protocol
  import opened ProtocolInv
  import opened ProtocolSteps
  import opened ProtocolRuns

  /** The slot of a prefix in the root bucket of its length. */
  function RootSlot<M>(c: Config<M>, id: PrefixId): Slot
    requires ConfigOk(c) && GoodId(c.bits, id)
  {
    SlotAt(c.bits, c.pfxTable, id, 0)
  }

  /** Two different prefixes that share a root slot. */
  predicate Clash<M>(c: Config<M>, p: PrefixId, q: PrefixId)
    requires ConfigOk(c) && GoodId(c.bits, p) && GoodId(c.bits, q)
  {
    p != q && RootSlot(c, p) == RootSlot(c, q)
  }

  ghost predicate GoodIds<M>(c: Config<M>, calls: seq<Call<M>>) {
    forall t :: 0 <= t < |calls| ==> GoodId(c.bits, calls[t].rec.id)
  }

  /** Calls whose prefixes share a root slot insert the same prefix. */
  ghost predicate NoClash<M>(c: Config<M>, calls: seq<Call<M>>)
    requires ConfigOk(c) && GoodIds(c, calls)
  {
    forall t, u :: 0 <= t < |calls| && 0 <= u < |calls| ==> !Clash(c, calls[t].rec.id, calls[u].rec.id)
  }

  /** The call has begun, and has not returned yet. */
  predicate Running<M>(pc: Pc<M>) {
    !pc.Start? && !pc.Done?
  }

  /** No two calls under way clash. */
  ghost predicate Apart<M>(c: Config<M>, s: State<M>) {
    && ConfigOk(c) && GoodIds(c, s.calls)
    && forall t, u :: 0 <= t < |s.calls| && 0 <= u < |s.calls| && Running(s.calls[t].pc) && Running(s.calls[u].pc) ==>
         !Clash(c, s.calls[t].rec.id, s.calls[u].rec.id)
  }

  /** At no point of the schedule are two calls that clash under way. */
  ghost predicate AlwaysApart<M>(c: Config<M>, s: State<M>, schedule: seq<nat>)
    decreases |schedule|
  {
    && Apart(c, s)
    && (schedule != [] ==>
          (Shaped(c, s, schedule[0]) ==> AlwaysApart(c, Step(c, s, schedule[0]), schedule[1..])))
  }

  // ----- Every call stays with its own record -----------------------------------------------------------

  /** A slot holds the prefix. */
  ghost predicate Holds<D>(slots: Slots<D>, id: PrefixId) {
    exists q :: q in slots && slots[q].prefix == id
  }

  /** The slot of the prefix at that level is free, or its own. */
  ghost predicate FreeOrOwn<M>(c: Config<M>, s: State<M>, id: PrefixId, depth: nat)
    requires ConfigOk(c)
  {
    && GoodId(c.bits, id) && depth < |c.pfxTable[id.len]|
    && var slot := SlotAt(c.bits, c.pfxTable, id, depth); slot in s.pfxs ==> s.pfxs[slot].prefix == id
  }

  /** The call has not taken another prefix's slot for its own, and gave up only if its prefix is stored. */
  ghost predicate AtHome<M>(c: Config<M>, s: State<M>, call: Call<M>)
    requires ConfigOk(c)
  {
    match call.pc
    case Reload(depth) => FreeOrOwn(c, s, call.rec.id, depth)
    case Create(depth) => FreeOrOwn(c, s, call.rec.id, depth)
    case LoadRecord(slot) => slot in s.pfxs && s.pfxs[slot].prefix == call.rec.id
    case Merge(slot, _, _) => slot in s.pfxs && s.pfxs[slot].prefix == call.rec.id
    case Done(result) => result.PrefixAlreadyExist? ==> Holds(s.pfxs, call.rec.id)
    case _ => true
  }

  ghost predicate CallsHome<M>(c: Config<M>, s: State<M>)
    requires ConfigOk(c)
  {
    forall t :: 0 <= t < |s.calls| ==> AtHome(c, s, s.calls[t])
  }

  /** Every record is that of its slot's prefix. */
  ghost predicate RecordsOk<M>(s: State<M>) {
    forall q :: q in s.pfxs ==> s.pfxs[q].meta.id == s.pfxs[q].prefix
  }

  /** Every logged change went to the record of the call's own prefix. */
  ghost predicate OwnTargets<M>(s: State<M>) {
    LogInRange(|s.calls|, s.log) && forall i :: 0 <= i < |s.log| ==> s.log[i].target == s.calls[s.log[i].call].rec.id
  }

  ghost predicate Home<M>(c: Config<M>, s: State<M>)
    requires ConfigOk(c)
  {
    RecordsOk(s) && CallsHome(c, s) && OwnTargets(s)
  }

  /** Prefixes that meet in a slot at any level share their root slot. */
  lemma SharedRoot<M>(c: Config<M>, s: State<M>, id: PrefixId, depth: nat)
    requires MemoryOk(c, s) && GoodId(c.bits, id) && depth < |c.pfxTable[id.len]|
    requires SlotAt(c.bits, c.pfxTable, id, depth) in s.pfxs
    ensures var p := s.pfxs[SlotAt(c.bits, c.pfxTable, id, depth)].prefix;
      GoodId(c.bits, p) && RootSlot(c, p) == RootSlot(c, id)
  {
    hide NodeOk, Hosted, Distinct, BucketsOk, HashId, TruncateToLen, BitsOk;
    var slot := SlotAt(c.bits, c.pfxTable, id, depth);
    var p := s.pfxs[slot].prefix;
    assert SlotOk(c.bits, c.pfxTable, Owners(s.pfxs), slot);
    PathPrefix(c.bits, c.pfxTable, p, 1, depth + 1);
    PathPrefix(c.bits, c.pfxTable, id, 1, depth + 1);
  }

  /** Taken slots stay with their prefixes. */
  ghost predicate StoreGrows<M>(s: State<M>, s': State<M>) {
    forall q :: q in s.pfxs ==> q in s'.pfxs && s'.pfxs[q].prefix == s.pfxs[q].prefix
  }

  /** What has been stored is of call t's prefix. */
  ghost predicate StoresFor<M>(s: State<M>, s': State<M>, t: nat) {
    t < |s.calls| && forall q :: q in s'.pfxs && q !in s.pfxs ==> s'.pfxs[q].prefix == s.calls[t].rec.id
  }

  /** A call that has found its slot free is not disturbed by calls that do not clash with it. */
  lemma StaysFree<M>(c: Config<M>, s: State<M>, s': State<M>, t: nat, u: nat, depth: nat)
    requires MemoryOk(c, s') && Apart(c, s) && StoreGrows(s, s') && StoresFor(s, s', t)
    requires u < |s.calls| && Running(s.calls[t].pc) && Running(s.calls[u].pc)
    requires FreeOrOwn(c, s, s.calls[u].rec.id, depth)
    ensures FreeOrOwn(c, s', s.calls[u].rec.id, depth)
  {
    hide MemoryOk, RootSlot, SlotAt, GoodRow, TruncateToLen, Running;
    TableOf(c, s');
    var id := s.calls[u].rec.id;
    var slot := SlotAt(c.bits, c.pfxTable, id, depth);
    if slot in s'.pfxs && slot !in s.pfxs {
      SharedRoot(c, s', id, depth);
      assert !Clash(c, s.calls[t].rec.id, s.calls[u].rec.id);
    }
  }

  lemma HomeGrows<M>(c: Config<M>, s: State<M>, s': State<M>, t: nat, u: nat)
    requires MemoryOk(c, s') && Apart(c, s) && StoreGrows(s, s') && StoresFor(s, s', t)
    requires u < |s.calls| && Running(s.calls[t].pc) && AtHome(c, s, s.calls[u])
    ensures AtHome(c, s', s.calls[u])
  {
    hide MemoryOk, Apart, FreeOrOwn, ConfigOk;
    match s.calls[u].pc
    case Reload(depth) => StaysFree(c, s, s', t, u, depth);
    case Create(depth) => StaysFree(c, s, s', t, u, depth);
    case Done(result) =>
      if result.PrefixAlreadyExist? {
        var q :| q in s.pfxs && s.pfxs[q].prefix == s.calls[u].rec.id;
        assert q in s'.pfxs && s'.pfxs[q].prefix == s.calls[u].rec.id;
      }
    case _ =>
  }

  lemma CallsStayHome<M>(c: Config<M>, s: State<M>, s': State<M>, t: nat)
    requires MemoryOk(c, s') && Apart(c, s) && StoreGrows(s, s') && StoresFor(s, s', t) && Running(s.calls[t].pc)
    requires CallsHome(c, s) && OnlyMoves(s, s', t) && AtHome(c, s', s'.calls[t])
    ensures CallsHome(c, s')
  {
    hide MemoryOk, Apart, StoreGrows, StoresFor, AtHome, ConfigOk, Running;
    TableOf(c, s');
    forall u | 0 <= u < |s'.calls|
      ensures AtHome(c, s', s'.calls[u])
    {
      if u != t { HomeGrows(c, s, s', t, u); }
    }
  }

  /** A step of a call that leaves the prefix store alone. */
  lemma HomeSame<M>(c: Config<M>, s: State<M>, s': State<M>, t: nat)
    requires ConfigOk(c) && Home(c, s) && OnlyMoves(s, s', t) && s'.pfxs == s.pfxs && s'.log == s.log
    requires AtHome(c, s', s'.calls[t])
    ensures Home(c, s')
  {
    hide ConfigOk, FreeOrOwn, Holds;
    forall u | 0 <= u < |s'.calls|
      ensures AtHome(c, s', s'.calls[u])
    {
      if u != t { AlikeHome(c, s, s', s.calls[u]); }
    }
    hide AtHome;
    assert forall i :: 0 <= i < |s.log| ==> s'.calls[s.log[i].call].rec == s.calls[s.log[i].call].rec;
  }

  lemma AlikeHome<M>(c: Config<M>, s: State<M>, s': State<M>, call: Call<M>)
    requires ConfigOk(c) && s'.pfxs == s.pfxs && AtHome(c, s, call)
    ensures AtHome(c, s', call)
  {
    hide ConfigOk, SlotAt, GoodId;
  }

  /** A step that changes the record of the call's own prefix. */
  lemma HomeChanged<M>(c: Config<M>, s: State<M>, s': State<M>, t: nat, slot: Slot)
    requires MemoryOk(c, s') && Apart(c, s) && Home(c, s) && OnlyMoves(s, s', t) && Running(s.calls[t].pc)
    requires slot in s'.pfxs && s'.pfxs == s.pfxs[slot := s'.pfxs[slot]] && s'.calls[t].pc == Done(Inserted)
    requires s'.pfxs[slot].prefix == s'.pfxs[slot].meta.id == s.calls[t].rec.id
    requires slot in s.pfxs ==> s.pfxs[slot].prefix == s.calls[t].rec.id
    requires s'.log == s.log + [Entry(t, s.calls[t].rec.id)]
    ensures Home(c, s')
  {
    hide MemoryOk, Apart, ConfigOk;
    TableOf(c, s');
    CallsStayHome(c, s, s', t);
    hide AtHome;
    forall i | 0 <= i < |s'.log|
      ensures s'.log[i].call < |s'.calls| && s'.log[i].target == s'.calls[s'.log[i].call].rec.id
    {
      if i < |s.log| { assert s'.log[i] == s.log[i]; }
    }
  }

  // ----- Every step, every run ---------------------------------------------------------------------------

  lemma LookupHome<M>(c: Config<M>, s: State<M>, t: nat, depth: nat)
    requires ConfigOk(c) && Home(c, s) && t < |s.calls| && Shaped(c, s, t) && s.calls[t].pc == Lookup(depth)
    ensures Home(c, LookupStep(c, s, t, depth))
  {
    hide Home, SlotAt, PathOf, HasBucket, GoodRow, TruncateToLen;
    HomeSame(c, s, LookupStep(c, s, t, depth), t);
  }

  lemma ReloadHome<M>(c: Config<M>, s: State<M>, t: nat, depth: nat)
    requires ConfigOk(c) && Home(c, s) && t < |s.calls| && Shaped(c, s, t) && s.calls[t].pc == Reload(depth)
    ensures Home(c, ReloadStep(c, s, t, depth))
  {
    hide SlotAt, RecordsOk, OwnTargets, GoodRow, TruncateToLen;
    assert AtHome(c, s, s.calls[t]);
    HomeSame(c, s, ReloadStep(c, s, t, depth), t);
  }

  lemma CreateHome<M>(c: Config<M>, s: State<M>, t: nat, depth: nat)
    requires Apart(c, s) && Home(c, s) && t < |s.calls| && Shaped(c, s, t) && s.calls[t].pc == Create(depth)
    requires MemoryOk(c, CreateStep(c, s, t, depth))
    ensures Home(c, CreateStep(c, s, t, depth))
  {
    hide MemoryOk, SlotAt, RecordsOk, OwnTargets, BitsForLen, GoodRow, TruncateToLen;
    assert AtHome(c, s, s.calls[t]);
    var slot := SlotAt(c.bits, c.pfxTable, s.calls[t].rec.id, depth);
    RowGrows(c.bits, c.pfxTable, s.calls[t].rec.id.len, depth);
    hide Apart;
    if slot in s.pfxs {
      HomeSame(c, s, CreateStep(c, s, t, depth), t);
    } else {
      HomeChanged(c, s, CreateStep(c, s, t, depth), t, slot);
    }
  }

  lemma LoadHome<M>(c: Config<M>, s: State<M>, t: nat, slot: Slot)
    requires ConfigOk(c) && Home(c, s)
    requires t < |s.calls| && s.calls[t].pc == LoadRecord(slot) && slot in s.pfxs && slot in s.versions
    ensures Home(c, LoadStep(s, t, slot))
  {
    hide ConfigOk, RecordsOk, OwnTargets;
    assert AtHome(c, s, s.calls[t]);
    HomeSame(c, s, LoadStep(s, t, slot), t);
  }

  lemma MergeHome<M>(c: Config<M>, s: State<M>, t: nat, slot: Slot, version: nat, meta: M)
    requires Apart(c, s) && Home(c, s) && t < |s.calls| && s.calls[t].pc == Merge(slot, version, meta)
    requires slot in s.pfxs && slot in s.versions && MemoryOk(c, MergeStep(c, s, t, slot, version, meta))
    ensures Home(c, MergeStep(c, s, t, slot, version, meta))
  {
    hide MemoryOk, Apart, ConfigOk, RecordsOk, OwnTargets;
    TableOf(c, MergeStep(c, s, t, slot, version, meta));
    assert AtHome(c, s, s.calls[t]);
    if s.versions[slot] == version {
      HomeChanged(c, s, MergeStep(c, s, t, slot, version, meta), t, slot);
    } else {
      HomeSame(c, s, MergeStep(c, s, t, slot, version, meta), t);
    }
  }

  /** While no two calls under way clash, every step leaves every call with its own record. */
  lemma HomeStep<M>(c: Config<M>, s: State<M>, t: nat)
    requires Apart(c, s) && Home(c, s) && t < |s.calls| && Shaped(c, s, t) && MemoryOk(c, Step(c, s, t))
    ensures Home(c, Step(c, s, t))
  {
    hide MemoryOk, Home, AtHome, LookupStep, ReloadStep, CreateStep, LoadStep, MergeStep, GoodRow, Clash, GoodIds,
         GoodId, BitsOk, LevelOk, NodeSlotOk;
    match s.calls[t].pc
    case Lookup(depth) => LookupHome(c, s, t, depth);
    case Reload(depth) => ReloadHome(c, s, t, depth);
    case Create(depth) => CreateHome(c, s, t, depth);
    case LoadRecord(slot) => LoadHome(c, s, t, slot);
    case Merge(slot, version, meta) => MergeHome(c, s, t, slot, version, meta);
    case Done(_) =>
    case _ =>
      hide Step, Shaped;
      NodeStepsStay(c, s, t);
      MovesHome(c, s, Step(c, s, t), t);
  }

  lemma MovesHome<M>(c: Config<M>, s: State<M>, s': State<M>, t: nat)
    requires ConfigOk(c) && Home(c, s) && StaysOff(s, s', t)
    ensures Home(c, s')
  {
    hide ConfigOk, Home;
    HomeSame(c, s, s', t);
  }

  lemma {:induction false} HomeRuns<M>(c: Config<M>, s: State<M>, schedule: seq<nat>)
    requires Inv(c, s) && ConfigOk(c) && Home(c, s) && IsSchedule(s, schedule) && AlwaysApart(c, s, schedule)
    ensures CanRun(c, s, schedule) && Home(c, After(c, s, schedule))
    decreases |schedule|
  {
    hide Inv, Home, ConfigOk, Shaped, Step, Grows, Apart;
    if schedule != [] {
      StepKeeps(c, s, schedule[0]);
      var m := Step(c, s, schedule[0]);
      InvMemory(c, m);
      HomeStep(c, s, schedule[0]);
      HomeRuns(c, m, schedule[1..]);
    }
  }

  /** If no two calls clash at all, then never two that are under way. */
  lemma {:induction false} NeverClashing<M>(c: Config<M>, s: State<M>, schedule: seq<nat>)
    requires ConfigOk(c) && GoodIds(c, s.calls) && NoClash(c, s.calls)
    ensures AlwaysApart(c, s, schedule)
    decreases |schedule|
  {
    hide ConfigOk, Shaped, Step, Clash, Running, GoodId;
    if schedule != [] {
      if Shaped(c, s, schedule[0]) {
        var m := Step(c, s, schedule[0]);
        assert forall t :: 0 <= t < |s.calls| ==> m.calls[t].rec == s.calls[t].rec;
        NeverClashing(c, m, schedule[1..]);
      }
    }
  }

  lemma InitialIsHome<M>(c: Config<M>, s: State<M>)
    requires Initial(c, s)
    ensures ConfigOk(c) && GoodIds(c, s.calls) && Home(c, s)
  {
  }

  // ----- No update is lost -------------------------------------------------------------------------------

  /** What the prefix store stands for. */
  ghost function Contents<M>(slots: Slots<Record<M>>): (m: map<PrefixId, M>)
    requires Distinct(slots)
  {
    map q | q in slots :: slots[q].prefix := slots[q].meta.meta
  }

  /** The records of the logged calls, in order. */
  ghost function OkInserts<M>(calls: seq<Call<M>>, log: seq<Entry>): (recs: seq<Record<M>>)
    requires LogInRange(|calls|, log)
    ensures |recs| == |log| && forall i :: 0 <= i < |log| ==> recs[i] == calls[log[i].call].rec
  {
    seq(|log|, i requires 0 <= i < |log| => calls[log[i].call].rec)
  }

  /** Changes that stay with their own prefixes amount to what the plain inserts amount to. */
  lemma {:induction false} OwnChanges<M>(changes: seq<Record<Record<M>>>, recs: seq<Record<M>>, merge: (M, M) -> M)
    requires |changes| == |recs| && forall i :: 0 <= i < |recs| ==> changes[i] == Record(recs[i].id, recs[i])
    ensures Run(changes, RecMerge(merge)).Keys == Run(recs, merge).Keys
    ensures forall id :: id in Run(recs, merge) ==>
      Run(changes, RecMerge(merge))[id] == Record(id, Run(recs, merge)[id])
  {
    if recs != [] {
      OwnChanges(changes[..|recs| - 1], recs[..|recs| - 1], merge);
    }
  }

  /** The store holds what the inserts that returned Ok amount to, in the order in which they changed it. */
  ghost predicate NothingLost<M>(c: Config<M>, s: State<M>) {
    Distinct(s.pfxs) && LogInRange(|s.calls|, s.log) && Contents(s.pfxs) == Run(OkInserts(s.calls, s.log), c.merge)
  }

  lemma OwnContents<M>(c: Config<M>, s: State<M>)
    requires Inv(c, s) && OwnTargets(s)
    ensures NothingLost(c, s)
  {
    hide MemoryOk, CallsOk, Run, RecMerge;
    InvMemory(c, s);
    TableOf(c, s);
    var recs := OkInserts(s.calls, s.log);
    OwnChanges(Applied(s.calls, s.log), recs, c.merge);
    ContentsOf(s.pfxs, Run(recs, c.merge));
  }

  lemma ContentsOf<M>(slots: Slots<Record<M>>, m: map<PrefixId, M>)
    requires Distinct(slots) && Prefixes(slots).Keys == m.Keys
    requires forall id :: id in m ==> Prefixes(slots)[id] == Record(id, m[id])
    ensures Contents(slots) == m
  {
    forall id | id in m
      ensures id in Contents(slots) && Contents(slots)[id] == m[id]
    {
      var q := SlotOf(slots, id);
    }
    forall id | id in Contents(slots)
      ensures id in m
    {
      var q :| q in slots && slots[q].prefix == id;
      AtSlot(slots, q);
    }
  }

  /**
   * In every run in which clashing calls never overlap, the store ends up with exactly what the inserts that
   * returned Ok amount to, each taken once, in the order in which they changed the store.
   */
  lemma NoUpdateLost<M>(c: Config<M>, s: State<M>, schedule: seq<nat>)
    requires Initial(c, s) && IsSchedule(s, schedule)
    requires AlwaysApart(c, s, schedule)
    ensures ConfigOk(c) && CanRun(c, s, schedule)
    ensures NothingLost(c, After(c, s, schedule)) && Home(c, After(c, s, schedule))
    ensures var s' := After(c, s, schedule);
      && (forall i, j :: 0 <= i < j < |s'.log| ==> s'.log[i].call != s'.log[j].call)
      && (forall t: nat :: Changed(s'.log, t) <==> t < |s'.calls| && s'.calls[t].pc == Done(Inserted))
  {
    hide Initial, Inv, AlwaysApart, GoodIds, ConfigOk, NothingLost, OwnTargets, RecordsOk, CallsHome, Changed, Run,
         RecMerge, Prefixes, Distinct, LogInRange;
    InitialIsOk(c, s);
    InitialIsHome(c, s);
    RunKeeps(c, s, schedule);
    HomeRuns(c, s, schedule);
    OkChangesOnce(c, s, schedule);
    OwnContents(c, After(c, s, schedule));
  }

  /** So the metadata of a stored prefix is the fold of the metadata of the Ok inserts for it, in that order. */
  lemma MetadataIsFold<M>(c: Config<M>, s: State<M>, schedule: seq<nat>, id: PrefixId)
    requires Initial(c, s) && IsSchedule(s, schedule)
    requires AlwaysApart(c, s, schedule)
    ensures CanRun(c, s, schedule)
    ensures var s' := After(c, s, schedule);
      && Distinct(s'.pfxs) && LogInRange(|s'.calls|, s'.log)
      && var metas := MetasOf(OkInserts(s'.calls, s'.log), id);
         if id in Contents(s'.pfxs) then metas != [] && Contents(s'.pfxs)[id] == Folded(metas, c.merge) else metas == []
  {
    hide Initial, Inv, AlwaysApart, GoodIds, ConfigOk, Home, Contents, Run, Distinct, MetasOf, Folded, Changed,
         LogInRange;
    NoUpdateLost(c, s, schedule);
    var s' := After(c, s, schedule);
    RunFolds(OkInserts(s'.calls, s'.log), c.merge, id);
  }

  // ----- Losing a race for a slot ---------------------------------------------------------------------------

  /**
   * After the swap that creates a record, the prefix is stored if and only if the slot was empty or it was stored
   * already.
   */
  lemma CreateStores<M>(c: Config<M>, s: State<M>, t: nat, depth: nat)
    requires Inv(c, s) && t < |s.calls| && s.calls[t].pc == Create(depth)
    requires ConfigOk(c) && GoodId(c.bits, s.calls[t].rec.id) && depth < |c.pfxTable[s.calls[t].rec.id.len]|
    ensures var s', slot := CreateStep(c, s, t, depth), SlotAt(c.bits, c.pfxTable, s.calls[t].rec.id, depth);
      && (s'.calls[t].pc == Done(if slot in s.pfxs then PrefixAlreadyExist else Inserted))
      && (Holds(s'.pfxs, s.calls[t].rec.id) <==> slot !in s.pfxs || Holds(s.pfxs, s.calls[t].rec.id))
  {
    hide Inv, GoodRow, TruncateToLen, SlotAt, BitsForLen;
    var slot := SlotAt(c.bits, c.pfxTable, s.calls[t].rec.id, depth);
    RowGrows(c.bits, c.pfxTable, s.calls[t].rec.id.len, depth);
    if slot !in s.pfxs { assert slot in CreateStep(c, s, t, depth).pfxs; }
  }
}
