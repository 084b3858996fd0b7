/**
 * Exactly when concurrent inserts can lose an update: if and only if two of them insert different prefixes
 * that share a slot of a root bucket.
 */
module ProtocolRaces {
  import opened Bits
  import opened Af
  import opened Stride
  import opened Records
  import opened Chain
  import opened Protocol
  import opened ProtocolInv
  import opened ProtocolSteps
  import opened ProtocolRuns
  import opened ProtocolHome
  import opened ProtocolLinks
  import opened ProtocolAlone

  // ----- The first upsert of a root slot -----------------------------------------------------------------

  lemma RootLevel<M>(c: Config<M>, id: PrefixId)
    requires ConfigOk(c) && GoodId(c.bits, id)
    ensures 0 < |c.pfxTable[id.len]| && PathOf(c.bits, c.pfxTable, id, 0) == []
  {
  }

  lemma LookupFree<M>(c: Config<M>, s: State<M>, u: nat)
    requires ConfigOk(c) && u < |s.calls| && Shaped(c, s, u) && s.calls[u].pc == Lookup(0)
    ensures GoodId(c.bits, s.calls[u].rec.id)
    ensures RootSlot(c, s.calls[u].rec.id) !in s.pfxs ==> Step(c, s, u) == Go(s, u, Reload(0))
  {
    hide SlotAt, PathOf, BitsForLen, GoodRow, TruncateToLen;
    RootLevel(c, s.calls[u].rec.id);
  }

  lemma ReloadAt<M>(c: Config<M>, s: State<M>, u: nat)
    requires ConfigOk(c) && u < |s.calls| && Shaped(c, s, u) && s.calls[u].pc == Reload(0)
    ensures GoodId(c.bits, s.calls[u].rec.id)
    ensures var slot := RootSlot(c, s.calls[u].rec.id);
      Step(c, s, u) == Go(s, u, if slot in s.pfxs then LoadRecord(slot) else Create(0))
  {
    hide SlotAt, GoodRow, TruncateToLen;
  }

  lemma CreateAt<M>(c: Config<M>, s: State<M>, u: nat)
    requires ConfigOk(c) && u < |s.calls| && Shaped(c, s, u) && s.calls[u].pc == Create(0)
    ensures GoodId(c.bits, s.calls[u].rec.id)
    ensures var rec, s' := s.calls[u].rec, Step(c, s, u);
      var slot := RootSlot(c, rec.id);
      if slot in s.pfxs then s' == Go(s, u, Done(PrefixAlreadyExist))
      else
        && s'.pfxs.Keys == s.pfxs.Keys + {slot} && s'.pfxs[slot].prefix == rec.id
          && s'.log == s.log + [Entry(u, rec.id)]
        && OnlyMoves(s, s', u) && s'.calls[u].pc == Done(Inserted)
  {
    hide SlotAt, BitsForLen, GoodRow, TruncateToLen;
    RowGrows(c.bits, c.pfxTable, s.calls[u].rec.id.len, 0);
  }

  /** The prefix store holds just the one prefix, which one call has put there. */
  ghost predicate HoldsJust<M>(c: Config<M>, s: State<M>, u: nat)
    requires ConfigOk(c) && u < |s.calls| && GoodId(c.bits, s.calls[u].rec.id)
  {
    var slot := RootSlot(c, s.calls[u].rec.id);
    s.pfxs.Keys == {slot} && s.pfxs[slot].prefix == s.calls[u].rec.id && s.log == [Entry(u, s.calls[u].rec.id)]
  }

  /** On its own, a call that looks up its prefix in an empty store creates the record. */
  lemma FillsEmpty<M>(c: Config<M>, s: State<M>, u: nat) returns (e: State<M>)
    requires Inv(c, s) && ConfigOk(c) && u < |s.calls| && s.calls[u].pc == Lookup(0) && s.pfxs == map[] && s.log == []
    ensures CanRun(c, s, [u, u, u]) && e == After(c, s, [u, u, u]) && OnlyMoves(s, e, u)
    ensures GoodId(c.bits, e.calls[u].rec.id) && HoldsJust(c, e, u) && e.calls[u].pc == Done(Inserted)
  {
    hide Inv, ConfigOk, Shaped, Step, Grows, GoodId, RootSlot;
    StepKeeps(c, s, u);
    LookupFree(c, s, u);
    var s1 := Step(c, s, u);
    StepKeeps(c, s1, u);
    ReloadAt(c, s1, u);
    var s2 := Step(c, s1, u);
    StepKeeps(c, s2, u);
    CreateAt(c, s2, u);
    e := Step(c, s2, u);
    RunThree(c, s, u);
  }

  lemma RunThree<M>(c: Config<M>, s: State<M>, u: nat)
    requires Shaped(c, s, u) && Shaped(c, Step(c, s, u), u) && Shaped(c, Step(c, Step(c, s, u), u), u)
    ensures CanRun(c, s, [u, u, u]) && After(c, s, [u, u, u]) == Step(c, Step(c, Step(c, s, u), u), u)
  {
    hide Shaped, Step;
    var s1 := Step(c, s, u);
    var s2 := Step(c, s1, u);
    RunOne(c, s2, u);
    RunMore(c, s1, u, [u]);
    RunMore(c, s, u, [u] + [u]);
    assert [u] + ([u] + [u]) == [u, u, u];
  }

  // ----- One call overtakes another ----------------------------------------------------------------------

  /** Call t alone, until it has found its slot empty once or, if it reloads, twice. */
  lemma FindsEmpty<M>(c: Config<M>, s: State<M>, t: nat, reloads: bool) returns (schedule: seq<nat>, e: State<M>)
    requires Initial(c, s) && t < |s.calls|
    ensures ConfigOk(c) && Only(schedule, t) && CanRun(c, s, schedule) && e == After(c, s, schedule)
    ensures Inv(c, e) && NoDangling(c, e) && OnlyTree(s, e, t)
    ensures e.calls[t].pc == if reloads then Create(0) else Reload(0)
  {
    hide Inv, ConfigOk, NoDangling, Shaped, Step, Grows, GoodId, RootSlot, BeforeUpsert;
    InitialIsOk(c, s);
    InitialLinks(c, s);
    FreshQuiet(c, s, t);
    hide Quiet;
    schedule := ReachesLookup(c, s, t);
    e := After(c, s, schedule);
    StepKeeps(c, e, t);
    LinksStep(c, e, t);
    LookupFree(c, e, t);
    RunOne(c, e, t);
    RunConcat(c, s, schedule, [t]);
    schedule, e := schedule + [t], Step(c, e, t);
    if reloads {
      StepKeeps(c, e, t);
      LinksStep(c, e, t);
      ReloadAt(c, e, t);
      RunOne(c, e, t);
      RunConcat(c, s, schedule, [t]);
      schedule, e := schedule + [t], Step(c, e, t);
    }
  }

  lemma FreshQuiet<M>(c: Config<M>, s: State<M>, t: nat)
    requires Initial(c, s) && t < |s.calls|
    ensures Quiet(s, t) && BeforeUpsert(s.calls[t].pc)
  {
  }

  /** Call u alone, from its start to its end, after call t has found the slot empty. */
  lemma Overtakes<M>(c: Config<M>, s: State<M>, t: nat, u: nat) returns (schedule: seq<nat>, e: State<M>)
    requires Inv(c, s) && ConfigOk(c) && NoDangling(c, s) && t < |s.calls| && u < |s.calls| && t != u
    requires s.calls[u].pc == Start && Quiet(s, u) && s.pfxs == map[] && s.log == []
    ensures Only(schedule, u) && CanRun(c, s, schedule) && e == After(c, s, schedule) && Inv(c, e)
    ensures OnlyMoves(s, e, u) && e.calls[u].pc == Done(Inserted)
    ensures GoodId(c.bits, e.calls[u].rec.id) && HoldsJust(c, e, u)
  {
    hide Inv, ConfigOk, NoDangling, Quiet, Shaped, Step, Grows, GoodId, HoldsJust;
    schedule := ReachesLookup(c, s, u);
    var m := After(c, s, schedule);
    e := FillsEmpty(c, m, u);
    RunConcat(c, s, schedule, [u, u, u]);
    schedule := schedule + [u, u, u];
    RunKeeps(c, s, schedule);
  }

  lemma {:induction false} NamesOnly<M>(s: State<M>, a: seq<nat>, b: seq<nat>, t: nat, u: nat)
    requires Only(a, t) && Only(b, u) && t < |s.calls| && u < |s.calls|
    ensures IsSchedule(s, a + b)
  {
  }

  /** Call t finds its slot empty; then call u runs from its start to its end. */
  lemma Overtaken<M>(c: Config<M>, s: State<M>, t: nat, u: nat, reloads: bool) returns (schedule: seq<nat>, e: State<M>)
    requires Initial(c, s) && t < |s.calls| && u < |s.calls| && t != u
    ensures IsSchedule(s, schedule) && CanRun(c, s, schedule) && e == After(c, s, schedule) && Inv(c, e)
      && SameRecs(s, e)
    ensures ConfigOk(c) && GoodId(c.bits, s.calls[u].rec.id) && HoldsJust(c, e, u)
    ensures e.calls[t].pc == (if reloads then Create(0) else Reload(0)) && e.calls[u].pc == Done(Inserted)
  {
    hide Inv, ConfigOk, NoDangling, Shaped, Step, Grows, GoodId, HoldsJust, IsSchedule, Only;
    var a, m := FindsEmpty(c, s, t, reloads);
    OthersFresh(c, s, m, t, u);
    hide Initial;
    var b;
    b, e := Overtakes(c, m, t, u);
    RunConcat(c, s, a, b);
    NamesOnly(s, a, b, t, u);
    schedule := a + b;
  }

  lemma OthersFresh<M>(c: Config<M>, s: State<M>, m: State<M>, t: nat, u: nat)
    requires Initial(c, s) && t < |s.calls| && u < |s.calls| && t != u && OnlyTree(s, m, t)
    requires m.calls[t].pc == Create(0) || m.calls[t].pc == Reload(0)
    ensures m.calls[u].pc == Start && Quiet(m, u) && m.pfxs == map[] && m.log == []
  {
  }

  // ----- What goes wrong -----------------------------------------------------------------------------------

  /** The overtaken call merges its metadata into the record of the other prefix, and returns Ok. */
  lemma Misdirects<M>(c: Config<M>, s: State<M>, t: nat, u: nat) returns (schedule: seq<nat>, e: State<M>)
    requires Initial(c, s) && t < |s.calls| && u < |s.calls|
    requires ConfigOk(c) && GoodIds(c, s.calls) && Clash(c, s.calls[t].rec.id, s.calls[u].rec.id)
    ensures IsSchedule(s, schedule) && CanRun(c, s, schedule) && e == After(c, s, schedule) && SameRecs(s, e)
    ensures e.calls[t].pc == e.calls[u].pc == Done(Inserted)
    ensures e.log == [Entry(u, s.calls[u].rec.id), Entry(t, s.calls[u].rec.id)]
    ensures var slot := RootSlot(c, s.calls[u].rec.id);
      e.pfxs.Keys == {slot} && e.pfxs[slot].prefix == s.calls[u].rec.id && e.pfxs[slot].meta.id == s.calls[t].rec.id
  {
    hide Inv, ConfigOk, NoDangling, Shaped, Step, Grows, GoodId, RootSlot, IsSchedule, Initial;
    var m;
    schedule, m := Overtaken(c, s, t, u, false);
    e := MergesIn(c, m, t);
    RunConcat(c, s, schedule, [t, t, t]);
    NamesMore(s, schedule, t);
    schedule := schedule + [t, t, t];
  }

  lemma NamesMore<M>(s: State<M>, a: seq<nat>, t: nat)
    requires IsSchedule(s, a) && t < |s.calls|
    ensures IsSchedule(s, a + [t]) && IsSchedule(s, a + [t, t, t])
  {
  }

  /** Call t takes the record in its root slot for its own. */
  lemma MergesIn<M>(c: Config<M>, s: State<M>, t: nat) returns (e: State<M>)
    requires Inv(c, s) && ConfigOk(c) && t < |s.calls| && s.calls[t].pc == Reload(0)
    requires GoodId(c.bits, s.calls[t].rec.id) && RootSlot(c, s.calls[t].rec.id) in s.pfxs
    ensures CanRun(c, s, [t, t, t]) && e == After(c, s, [t, t, t]) && OnlyMoves(s, e, t)
    ensures var slot := RootSlot(c, s.calls[t].rec.id);
      && e.calls[t].pc == Done(Inserted) && e.pfxs.Keys == s.pfxs.Keys
        && e.log == s.log + [Entry(t, s.pfxs[slot].prefix)]
      && e.pfxs[slot].prefix == s.pfxs[slot].prefix && e.pfxs[slot].meta.id == s.calls[t].rec.id
  {
    hide Inv, ConfigOk, Shaped, Step, Grows, GoodId, RootSlot;
    var slot := RootSlot(c, s.calls[t].rec.id);
    StepKeeps(c, s, t);
    ReloadAt(c, s, t);
    var s1 := Step(c, s, t);
    StepKeeps(c, s1, t);
    LoadAt(c, s1, t, slot);
    var s2 := Step(c, s1, t);
    StepKeeps(c, s2, t);
    MergeAt(c, s2, t, slot);
    e := Step(c, s2, t);
    RunThree(c, s, t);
  }

  lemma LoadAt<M>(c: Config<M>, s: State<M>, t: nat, slot: Slot)
    requires t < |s.calls| && Shaped(c, s, t) && s.calls[t].pc == LoadRecord(slot)
    ensures slot in s.pfxs && slot in s.versions
    ensures Step(c, s, t) == Go(s, t, Merge(slot, s.versions[slot], s.pfxs[slot].meta.meta))
  {
    hide ConfigOk, GoodId;
  }

  lemma MergeAt<M>(c: Config<M>, s: State<M>, t: nat, slot: Slot)
    requires t < |s.calls| && Shaped(c, s, t) && s.calls[t].pc.Merge? && s.calls[t].pc.slot == slot
    requires slot in s.versions && s.calls[t].pc.version == s.versions[slot]
    ensures var e := Step(c, s, t);
      && slot in s.pfxs && OnlyMoves(s, e, t) && e.calls[t].pc == Done(Inserted)
      && e.pfxs.Keys == s.pfxs.Keys && e.log == s.log + [Entry(t, s.pfxs[slot].prefix)]
      && e.pfxs[slot].prefix == s.pfxs[slot].prefix && e.pfxs[slot].meta.id == s.calls[t].rec.id
  {
    hide ConfigOk, GoodId;
  }

  /** The overtaken call finds its slot taken and gives up, whichever prefix has taken it. */
  lemma LosesSlot<M>(c: Config<M>, s: State<M>, t: nat, u: nat) returns (schedule: seq<nat>, e: State<M>)
    requires Initial(c, s) && t < |s.calls| && u < |s.calls| && t != u
    requires ConfigOk(c) && GoodIds(c, s.calls) && RootSlot(c, s.calls[t].rec.id) == RootSlot(c, s.calls[u].rec.id)
    ensures IsSchedule(s, schedule) && CanRun(c, s, schedule) && e == After(c, s, schedule) && SameRecs(s, e)
    ensures e.calls[t].pc == Done(PrefixAlreadyExist)
    ensures HoldsJust(c, e, u)
  {
    hide Inv, ConfigOk, NoDangling, Shaped, Step, Grows, GoodId, RootSlot, IsSchedule, Initial;
    var m;
    schedule, m := Overtaken(c, s, t, u, true);
    StepKeeps(c, m, t);
    CreateAt(c, m, t);
    e := Step(c, m, t);
    RunOne(c, m, t);
    RunConcat(c, s, schedule, [t]);
    NamesMore(s, schedule, t);
    schedule := schedule + [t];
  }

  /** If the two prefixes differ, the one of the call that gives up is not stored. */
  lemma GivesUp<M>(c: Config<M>, s: State<M>, t: nat, u: nat) returns (schedule: seq<nat>, e: State<M>)
    requires Initial(c, s) && t < |s.calls| && u < |s.calls|
    requires ConfigOk(c) && GoodIds(c, s.calls) && Clash(c, s.calls[t].rec.id, s.calls[u].rec.id)
    ensures IsSchedule(s, schedule) && CanRun(c, s, schedule) && e == After(c, s, schedule) && SameRecs(s, e)
    ensures e.calls[t].pc == Done(PrefixAlreadyExist) && !Holds(e.pfxs, s.calls[t].rec.id)
  {
    hide Inv, ConfigOk, Shaped, Step, GoodId, RootSlot, IsSchedule, Initial;
    schedule, e := LosesSlot(c, s, t, u);
  }

  // ----- Exactly when ----------------------------------------------------------------------------------------

  /** Every schedule leaves the store with what the inserts that returned Ok amount to. */
  ghost predicate NeverLoses<M>(c: Config<M>, s: State<M>) {
    forall schedule {:trigger IsSchedule(s, schedule)} :: IsSchedule(s, schedule) ==>
      CanRun(c, s, schedule) && NothingLost(c, After(c, s, schedule))
  }

  /** In every schedule, every change goes to the record of the prefix that the call inserts. */
  ghost predicate NeverMisdirects<M>(c: Config<M>, s: State<M>) {
    forall schedule {:trigger IsSchedule(s, schedule)} :: IsSchedule(s, schedule) ==>
      CanRun(c, s, schedule) && OwnTargets(After(c, s, schedule))
  }

  /** The prefix of every insert that returned PrefixAlreadyExist is stored. */
  ghost predicate ExistMeansStored<M>(s: State<M>) {
    forall t :: 0 <= t < |s.calls| && s.calls[t].pc == Done(PrefixAlreadyExist) ==> Holds(s.pfxs, s.calls[t].rec.id)
  }

  ghost predicate NeverMisreports<M>(c: Config<M>, s: State<M>) {
    forall schedule {:trigger IsSchedule(s, schedule)} :: IsSchedule(s, schedule) ==>
      CanRun(c, s, schedule) && ExistMeansStored(After(c, s, schedule))
  }

  lemma HomeTellsTruth<M>(c: Config<M>, s: State<M>)
    requires ConfigOk(c) && Home(c, s)
    ensures OwnTargets(s) && ExistMeansStored(s)
  {
    hide ConfigOk, RecordsOk, OwnTargets, Holds, FreeOrOwn;
    assert forall t :: 0 <= t < |s.calls| ==> AtHome(c, s, s.calls[t]);
  }

  lemma SomeClash<M>(c: Config<M>, calls: seq<Call<M>>) returns (t: nat, u: nat)
    requires ConfigOk(c) && GoodIds(c, calls) && !NoClash(c, calls)
    ensures t < |calls| && u < |calls| && Clash(c, calls[t].rec.id, calls[u].rec.id)
  {
    hide Clash, ConfigOk, GoodId;
    t, u :| 0 <= t < |calls| && 0 <= u < |calls| && Clash(c, calls[t].rec.id, calls[u].rec.id);
  }

  /** A call whose record was merged into another prefix's is lost. */
  lemma MisdirectedIsLost<M>(c: Config<M>, e: State<M>, t: nat, u: nat, slot: Slot)
    requires t < |e.calls| && u < |e.calls| && e.calls[t].rec.id != e.calls[u].rec.id
    requires e.log == [Entry(u, e.calls[u].rec.id), Entry(t, e.calls[u].rec.id)]
    requires e.pfxs.Keys == {slot} && e.pfxs[slot].prefix == e.calls[u].rec.id
    ensures !NothingLost(c, e) && !OwnTargets(e)
  {
    hide Run, MetasOf, Folded;
    var recs := OkInserts(e.calls, e.log);
    RunFolds(recs, c.merge, e.calls[t].rec.id);
    assert recs[1].id == e.calls[t].rec.id;
    assert e.log[1].target != e.calls[e.log[1].call].rec.id;
  }

  lemma ClashLoses<M>(c: Config<M>, s: State<M>)
    requires Initial(c, s) && ConfigOk(c) && GoodIds(c, s.calls) && !NoClash(c, s.calls)
    ensures !NeverLoses(c, s) && !NeverMisdirects(c, s) && !NeverMisreports(c, s)
  {
    hide Initial, ConfigOk, GoodId, NoClash, Clash, NothingLost, OwnTargets, RootSlot, IsSchedule, Holds, CanRun;
    var t, u := SomeClash(c, s.calls);
    DifferentIds(c, s.calls[t].rec.id, s.calls[u].rec.id);
    var schedule, e := Misdirects(c, s, t, u);
    MisdirectedIsLost(c, e, t, u, RootSlot(c, s.calls[u].rec.id));
    var schedule', e' := GivesUp(c, s, t, u);
    assert !ExistMeansStored(e');
  }

  lemma DifferentIds<M>(c: Config<M>, p: PrefixId, q: PrefixId)
    requires ConfigOk(c) && GoodId(c.bits, p) && GoodId(c.bits, q) && Clash(c, p, q)
    ensures p != q
  {
  }

  lemma NoClashKeepsAll<M>(c: Config<M>, s: State<M>)
    requires Initial(c, s) && ConfigOk(c) && GoodIds(c, s.calls) && NoClash(c, s.calls)
    ensures NeverLoses(c, s) && NeverMisdirects(c, s) && NeverMisreports(c, s)
  {
    hide Initial, ConfigOk, GoodIds, NoClash, AlwaysApart, NothingLost, OwnTargets, ExistMeansStored, IsSchedule, Home,
         Changed;
    forall schedule | IsSchedule(s, schedule)
      ensures CanRun(c, s, schedule) && NothingLost(c, After(c, s, schedule)) && OwnTargets(After(c, s, schedule))
      ensures ExistMeansStored(After(c, s, schedule))
    {
      NeverClashing(c, s, schedule);
      NoUpdateLost(c, s, schedule);
      HomeTellsTruth(c, After(c, s, schedule));
    }
  }

  /**
   * Whatever the calls insert: no schedule loses an update if and only if no two calls insert different prefixes
   * with one root slot. The same condition decides whether a change can go to another prefix's record, and
   * whether a call can return PrefixAlreadyExist although its prefix is not stored.
   */
  lemma SafeIffNoClash<M>(c: Config<M>, s: State<M>)
    requires Initial(c, s)
    ensures ConfigOk(c) && GoodIds(c, s.calls)
    ensures NeverLoses(c, s) <==> NoClash(c, s.calls)
    ensures NeverMisdirects(c, s) <==> NoClash(c, s.calls)
    ensures NeverMisreports(c, s) <==> NoClash(c, s.calls)
  {
    hide Initial, ConfigOk, GoodIds, NoClash, NeverLoses, NeverMisdirects, NeverMisreports, Home;
    InitialIsHome(c, s);
    if NoClash(c, s.calls) { NoClashKeepsAll(c, s); } else { ClashLoses(c, s); }
  }

  // ----- When an insert can give up at all -----------------------------------------------------------------

  /** Two calls insert prefixes with one root slot, whether they are equal or not. */
  ghost predicate SharedSlot<M>(c: Config<M>, calls: seq<Call<M>>)
    requires ConfigOk(c) && GoodIds(c, calls)
  {
    exists t, u :: 0 <= t < u < |calls| && RootSlot(c, calls[t].rec.id) == RootSlot(c, calls[u].rec.id)
  }

  ghost predicate SomeGaveUp<M>(s: State<M>) {
    exists t :: 0 <= t < |s.calls| && s.calls[t].pc == Done(PrefixAlreadyExist)
  }

  /** Some schedule ends with a call that has returned PrefixAlreadyExist. */
  ghost predicate CanGiveUp<M>(c: Config<M>, s: State<M>) {
    exists schedule {:trigger IsSchedule(s, schedule)} ::
      IsSchedule(s, schedule) && CanRun(c, s, schedule) && SomeGaveUp(After(c, s, schedule))
  }

  /** Some call that returned Ok inserted the prefix. */
  ghost predicate CreatedByOk<M>(s: State<M>, id: PrefixId) {
    exists u :: 0 <= u < |s.calls| && s.calls[u].pc == Done(Inserted) && s.calls[u].rec.id == id
  }

  /** Whoever took a slot has returned Ok, and no one has given up. */
  ghost predicate NoneGaveUp<M>(s: State<M>) {
    (forall q :: q in s.pfxs ==> CreatedByOk(s, s.pfxs[q].prefix)) && !SomeGaveUp(s)
  }

  lemma CreatedStays<M>(s: State<M>, s': State<M>, t: nat, id: PrefixId)
    requires OnlyMoves(s, s', t) && s.calls[t].pc != Done(Inserted) && CreatedByOk(s, id)
    ensures CreatedByOk(s', id)
  {
    var u :| 0 <= u < |s.calls| && s.calls[u].pc == Done(Inserted) && s.calls[u].rec.id == id;
    assert s'.calls[u] == s.calls[u];
  }

  /** A step after which the slots are those from before, except for one that its call has taken and returned Ok. */
  lemma NoneGivesUp<M>(s: State<M>, s': State<M>, t: nat)
    requires NoneGaveUp(s) && OnlyMoves(s, s', t) && s.calls[t].pc != Done(Inserted)
    requires s'.calls[t].pc != Done(PrefixAlreadyExist)
    requires forall q :: q in s'.pfxs ==>
      || (q in s.pfxs && s'.pfxs[q].prefix == s.pfxs[q].prefix)
      || (s'.pfxs[q].prefix == s.calls[t].rec.id && s'.calls[t].pc == Done(Inserted))
    ensures NoneGaveUp(s')
  {
    hide CreatedByOk;
    forall q | q in s'.pfxs
      ensures CreatedByOk(s', s'.pfxs[q].prefix)
    {
      if q in s.pfxs && s'.pfxs[q].prefix == s.pfxs[q].prefix {
        CreatedStays(s, s', t, s.pfxs[q].prefix);
      } else {
        CreatedHere(s', t);
      }
    }
    assert !SomeGaveUp(s);
    forall u | 0 <= u < |s'.calls|
      ensures s'.calls[u].pc != Done(PrefixAlreadyExist)
    {
      if u != t { assert s'.calls[u] == s.calls[u]; }
    }
  }

  lemma CreatedHere<M>(s: State<M>, t: nat)
    requires t < |s.calls| && s.calls[t].pc == Done(Inserted)
    ensures CreatedByOk(s, s.calls[t].rec.id)
  {
  }

  /** A slot that a call finds taken at its creation was taken by another call with the same root slot. */
  lemma TakenIsShared<M>(c: Config<M>, s: State<M>, t: nat, depth: nat)
    requires MemoryOk(c, s) && GoodIds(c, s.calls) && NoneGaveUp(s)
    requires t < |s.calls| && s.calls[t].pc == Create(depth) && depth < |c.pfxTable[s.calls[t].rec.id.len]|
    requires SlotAt(c.bits, c.pfxTable, s.calls[t].rec.id, depth) in s.pfxs
    ensures ConfigOk(c) && SharedSlot(c, s.calls)
  {
    hide MemoryOk, RootSlot, SlotAt, GoodRow, TruncateToLen;
    TableOf(c, s);
    var slot := SlotAt(c.bits, c.pfxTable, s.calls[t].rec.id, depth);
    SharedRoot(c, s, s.calls[t].rec.id, depth);
    assert CreatedByOk(s, s.pfxs[slot].prefix);
    var u :| 0 <= u < |s.calls| && s.calls[u].pc == Done(Inserted) && s.calls[u].rec.id == s.pfxs[slot].prefix;
    assert u != t;
    if u < t { SharesSlot(c, s.calls, u, t); } else { SharesSlot(c, s.calls, t, u); }
  }

  lemma SharesSlot<M>(c: Config<M>, calls: seq<Call<M>>, t: nat, u: nat)
    requires ConfigOk(c) && GoodIds(c, calls) && t < u < |calls|
    requires RootSlot(c, calls[t].rec.id) == RootSlot(c, calls[u].rec.id)
    ensures SharedSlot(c, calls)
  {
    hide RootSlot, ConfigOk, GoodId;
  }

  lemma UpsertNoneGivesUp<M>(c: Config<M>, s: State<M>, t: nat)
    requires MemoryOk(c, s) && ConfigOk(c) && GoodIds(c, s.calls) && !SharedSlot(c, s.calls) && NoneGaveUp(s)
    requires t < |s.calls| && Shaped(c, s, t) && !BeforeUpsert(s.calls[t].pc) && !s.calls[t].pc.Done?
    ensures NoneGaveUp(Step(c, s, t))
  {
    hide MemoryOk, SlotAt, PathOf, BitsForLen, GoodRow, TruncateToLen, GoodIds, SharedSlot, NoneGaveUp;
    var pc := s.calls[t].pc;
    if pc.Create? && SlotAt(c.bits, c.pfxTable, s.calls[t].rec.id, pc.depth) in s.pfxs {
      TakenIsShared(c, s, t, pc.depth);
      assert false;
    }
    NoneGivesUp(s, Step(c, s, t), t);
  }

  lemma {:induction false} NoneGivesUpInRun<M>(c: Config<M>, s: State<M>, schedule: seq<nat>)
    requires Inv(c, s) && ConfigOk(c) && GoodIds(c, s.calls) && !SharedSlot(c, s.calls) && NoneGaveUp(s)
    requires IsSchedule(s, schedule)
    ensures CanRun(c, s, schedule) && NoneGaveUp(After(c, s, schedule))
    decreases |schedule|
  {
    hide Inv, ConfigOk, Shaped, Step, Grows, GoodIds, SharedSlot, NoneGaveUp, BeforeUpsert, StaysOff;
    if schedule != [] {
      var t := schedule[0];
      StepKeeps(c, s, t);
      var m := Step(c, s, t);
      InvMemory(c, s);
      if s.calls[t].pc.Done? {
        DoneStays(c, s, t);
      } else if BeforeUpsert(s.calls[t].pc) {
        NodeStepsStay(c, s, t);
        StaysOffGivesUp(s, m, t);
      } else {
        UpsertNoneGivesUp(c, s, t);
      }
      SharedLater(c, s, m);
      NoneGivesUpInRun(c, m, schedule[1..]);
    }
  }

  lemma DoneStays<M>(c: Config<M>, s: State<M>, t: nat)
    requires t < |s.calls| && Shaped(c, s, t) && s.calls[t].pc.Done?
    ensures Step(c, s, t) == s
  {
  }

  lemma StaysOffGivesUp<M>(s: State<M>, s': State<M>, t: nat)
    requires NoneGaveUp(s) && t < |s.calls| && StaysOff(s, s', t) && !s.calls[t].pc.Done?
    ensures NoneGaveUp(s')
  {
    hide NoneGaveUp;
    NoneGivesUp(s, s', t);
  }

  lemma SharedLater<M>(c: Config<M>, s: State<M>, m: State<M>)
    requires SameRecs(s, m) && ConfigOk(c) && GoodIds(c, s.calls)
    ensures GoodIds(c, m.calls) && (SharedSlot(c, m.calls) ==> SharedSlot(c, s.calls))
  {
    hide ConfigOk, GoodId, RootSlot;
    assert forall t :: 0 <= t < |s.calls| ==> m.calls[t].rec == s.calls[t].rec;
  }

  lemma GivenUp<M>(s: State<M>, t: nat)
    requires t < |s.calls| && s.calls[t].pc == Done(PrefixAlreadyExist)
    ensures SomeGaveUp(s)
  {
  }

  /**
   * From a fresh store some schedule makes some call return PrefixAlreadyExist if and only if two calls insert prefixes
   * of one length with one root slot, equal prefixes among them.
   */
  lemma CanGiveUpIff<M>(c: Config<M>, s: State<M>)
    requires Initial(c, s)
    ensures ConfigOk(c) && GoodIds(c, s.calls)
    ensures CanGiveUp(c, s) <==> SharedSlot(c, s.calls)
  {
    hide Initial, Inv, ConfigOk, GoodIds, Home, RootSlot, SomeGaveUp, CanRun, IsSchedule, HoldsJust;
    InitialIsOk(c, s);
    InitialIsHome(c, s);
    if SharedSlot(c, s.calls) {
      var t, u :| 0 <= t < u < |s.calls| && RootSlot(c, s.calls[t].rec.id) == RootSlot(c, s.calls[u].rec.id);
      var schedule, e := LosesSlot(c, s, t, u);
      GivenUp(e, t);
    } else if CanGiveUp(c, s) {
      var schedule :| IsSchedule(s, schedule) && CanRun(c, s, schedule) && SomeGaveUp(After(c, s, schedule));
      FreshNoneGaveUp(c, s);
      NoneGivesUpInRun(c, s, schedule);
    }
  }

  lemma FreshNoneGaveUp<M>(c: Config<M>, s: State<M>)
    requires Initial(c, s)
    ensures NoneGaveUp(s)
  {
  }

  // ----- An example ------------------------------------------------------------------------------------------

  /** Three address bits in one stride, one bit a storage level. */
  ghost predicate IsExample<M>(c: Config<M>) {
    c.bits == 3 && c.strides == [3] && c.nodeTable == c.pfxTable == [[], [1], [1, 2], [1, 2, 3]]
  }

  lemma ExampleOk<M>(c: Config<M>)
    requires IsExample(c)
    ensures ConfigOk(c) && IsStride(3)
  {
    assert Offset([3], 1) == Offset([3], 0) + 3 == 3;
    assert forall len :: 0 < len <= 3 ==> GoodRow(c.pfxTable[len], len);
  }

  lemma ExampleIds()
    ensures GoodId(3, PrefixId(0, 2)) && GoodId(3, PrefixId(2, 2))
  {
    assert Pow2(3) == 8;
    assert Shr(2, 1) == 1 && Double(1, 3) == 2 && Shl(1, 1, 3) == 2;
    assert Shr(0, 1) == 0 && Double(0, 3) == 0 && Shl(0, 1, 3) == 0;
  }

  lemma ExampleClash<M>(c: Config<M>)
    requires IsExample(c) && ConfigOk(c) && GoodId(3, PrefixId(0, 2)) && GoodId(3, PrefixId(2, 2))
    ensures Clash(c, PrefixId(0, 2), PrefixId(2, 2))
  {
    hide ToBits, Val, GoodRow, TruncateToLen;
    var p, q := PrefixId(0, 2), PrefixId(2, 2);
    LevelBounds(3, c.pfxTable, 2, 0);
    assert Shl(0, 0, 3) == 0 && Shl(2, 0, 3) == 2;
    assert Shr(2, 2) == Shr(1, 1) == 0 && Shr(0, 2) == Shr(0, 1) == 0;
    assert HashId(3, c.pfxTable, p, 0) == HashId(3, c.pfxTable, q, 0);
    RootLevel(c, p);
    RootLevel(c, q);
    assert PathOf(3, c.pfxTable, p, 1) == [] + [HashId(3, c.pfxTable, p, 0)];
    assert PathOf(3, c.pfxTable, q, 1) == [] + [HashId(3, c.pfxTable, q, 0)];
  }

  /** A fresh store with two inserts that clash, of 00/2 and 01/2, and what that means for them. */
  lemma ClashExample() returns (c: Config<int>, s: State<int>)
    ensures Initial(c, s) && ConfigOk(c) && GoodIds(c, s.calls) && !NoClash(c, s.calls)
    ensures !NeverLoses(c, s) && !NeverMisdirects(c, s) && !NeverMisreports(c, s)
  {
    hide NeverLoses, NeverMisdirects, NeverMisreports, EmptyBits, GoodRow, Pow2, TruncateToLen, RootSlot;
    var table := [[], [1], [1, 2], [1, 2, 3]];
    c := Config(3, [3], table, table, (a, b) => a + b);
    ExampleOk(c);
    ExampleIds();
    ExampleClash(c);
    var t, u := Call(Record(PrefixId(0, 2), 1), Start), Call(Record(PrefixId(2, 2), 1), Start);
    s := State(EmptyBits(c, 0), map[], map[], map[], [t, u], []);
    assert Clash(c, s.calls[0].rec.id, s.calls[1].rec.id);
    ClashLoses(c, s);
  }
}
