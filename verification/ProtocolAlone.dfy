/** Progress: a call that runs on its own ends, and a call can only fail to find a node while another one stores it. */
module ProtocolAlone {
  import opened Af
  import opened Stride
  import opened Chain
  import opened PrefixStores
  import opened Protocol
  import opened ProtocolInv
  import opened ProtocolSteps
  import opened ProtocolRuns
  import opened ProtocolLinks
  import opened ProtocolTries

  // ----- Looking for a node that is not there -------------------------------------------------------------

  /** A call other than t is storing the node. */
  ghost predicate OtherStores<M>(s: State<M>, t: nat, nid: PrefixId) {
    exists u {:trigger s.calls[u]} :: 0 <= u < |s.calls| && u != t && Storing(s.calls[u].pc, nid)
  }

  lemma AbsentIsBeingStored<M>(c: Config<M>, s: State<M>, t: nat, level: nat, cur: PrefixId, depth: nat)
    requires MemoryOk(c, s) && LookingOk(c, s, level, cur, depth) && NoDangling(c, s)
    requires t < |s.calls| && s.calls[t].pc.Retrieve? && SlotAt(c.bits, c.nodeTable, cur, depth) !in s.nodes
    ensures OtherStores(s, t, cur)
  {
    hide MemoryOk, Linked, SlotsOk, SlotAt, TruncateToLen, GoodRow, TakenBefore;
    NodeSlots(c, s);
    FreeMeansAbsent(c.bits, c.nodeTable, Owners(s.nodes), cur, depth);
    StoredIsOwned(s, cur);
    hide NodeStored, Storing;
    var u :| 0 <= u < |s.calls| && Storing(s.calls[u].pc, cur);
    assert u != t;
  }

  /** A load of the node lookup finds the node, goes on to the next level, or another call is storing the node. */
  lemma LookupFails<M>(c: Config<M>, s: State<M>, t: nat, level: nat, cur: PrefixId, tries: nat, depth: nat)
    requires Inv(c, s) && t < |s.calls| && s.calls[t].pc == Retrieve(level, cur, tries, depth)
    requires ConfigOk(c) && NoDangling(c, s) && (cur.len > 0 ==> NodeSlotOk(c, cur, depth))
    ensures var pc := RetrieveStep(c, s, t, level, cur, tries, depth).calls[t].pc;
      || (pc.Eval? && pc.level == level)
      || (pc == Retrieve(level, cur, tries, depth + 1) && cur.len > 0 && NodeSlotOk(c, cur, depth + 1))
      || OtherStores(s, t, cur)
  {
    hide Inv, MemoryOk, Linked, SlotsOk, SlotAt, TruncateToLen, GoodRow, TakenBefore, NoDangling, OtherStores, PathOf,
         HasBucket, LevelOk, BitsForLen;
    CallAt(c, s, t);
    InvMemory(c, s);
    BelowRoot(c, s.calls[t].rec.id, level, cur);
    if cur.len > 0 {
      LooksOn(c, s, level, cur, depth);
      if SlotAt(c.bits, c.nodeTable, cur, depth) !in s.nodes { AbsentIsBeingStored(c, s, t, level, cur, depth); }
    }
  }

  // ----- How far a call still has to go ----------------------------------------------------------------------

  /** No other call is storing a node. */
  ghost predicate Quiet<M>(s: State<M>, t: nat) {
    forall u :: 0 <= u < |s.calls| && u != t ==> !s.calls[u].pc.StoreNode? && !s.calls[u].pc.StoreCas?
  }

  function Left<M>(c: Config<M>, pc: Pc<M>): nat
    requires BeforeUpsert(pc)
  {
    var strides := |c.strides|;
    if pc.Start? then strides + 1 else if pc.level <= strides then strides - pc.level else 0
  }

  function Stage<M>(pc: Pc<M>): nat
    requires BeforeUpsert(pc)
  {
    match pc
    case Start => 4
    case Retrieve(_, _, _, _) => 3
    case Eval(_, _, _) => 2
    case CasPtr(_, _, _, _) => 1
    case CasPfx(_, _, _, _) => 1
    case _ => 0
  }

  /** How often the call may still look for its node. */
  function TriesLeft<M>(pc: Pc<M>): nat {
    if pc.Retrieve? && pc.tries <= MAX_RETRIES then MAX_RETRIES - pc.tries else 0
  }

  function LevelsLeft<M>(c: Config<M>, id: PrefixId, depth: nat): nat {
    if id.len < |c.nodeTable| && depth <= |c.nodeTable[id.len]| then |c.nodeTable[id.len]| - depth else 0
  }

  ghost predicate SlotTaken<M>(c: Config<M>, s: State<M>, id: PrefixId, depth: nat) {
    ConfigOk(c) && NodeSlotOk(c, id, depth) && SlotAt(c.bits, c.nodeTable, id, depth) in s.nodes
  }

  /** What the call has yet to do where it stands. */
  ghost function Inner<M>(c: Config<M>, s: State<M>, pc: Pc<M>): nat
    requires BeforeUpsert(pc)
  {
    match pc
    case Retrieve(_, cur, _, depth) => LevelsLeft(c, cur, depth)
    case CasPtr(_, _, place, seen) => if HasNode(s, place) && BitsAt(s, place).ptrbitarr == seen then 0 else 1
    case CasPfx(_, _, place, seen) => if HasNode(s, place) && BitsAt(s, place).pfxbitarr == seen then 0 else 1
    case StoreNode(_, id, depth) => 2 * LevelsLeft(c, id, depth) + 1
    case StoreCas(_, id, depth) => 2 * LevelsLeft(c, id, depth) + if SlotTaken(c, s, id, depth) then 2 else 0
    case _ => 0
  }

  /** The call is at the lookup of its prefix, has given up, or is strictly closer. */
  ghost predicate Closer<M>(c: Config<M>, s: State<M>, pc: Pc<M>, s': State<M>, pc': Pc<M>)
    requires BeforeUpsert(pc)
  {
    pc' == Lookup(0) || pc' == Done(NodeCreationMaxRetryError) || (BeforeUpsert(pc') && LessLeft(c, s, pc, s', pc'))
  }

  ghost predicate LessLeft<M>(c: Config<M>, s: State<M>, pc: Pc<M>, s': State<M>, pc': Pc<M>)
    requires BeforeUpsert(pc) && BeforeUpsert(pc')
  {
    || Left(c, pc') < Left(c, pc)
    || (Left(c, pc') == Left(c, pc) && (
      || Stage(pc') < Stage(pc)
      || (Stage(pc') == Stage(pc) && (
        || TriesLeft(pc') < TriesLeft(pc)
        || (TriesLeft(pc') == TriesLeft(pc) && Inner(c, s', pc') < Inner(c, s, pc))))))
  }

  lemma QuietStores<M>(s: State<M>, t: nat, nid: PrefixId)
    requires Quiet(s, t)
    ensures !OtherStores(s, t, nid)
  {
  }

  lemma RetrieveCloser<M>(c: Config<M>, s: State<M>, t: nat, level: nat, cur: PrefixId, tries: nat, depth: nat)
    requires Inv(c, s) && t < |s.calls| && s.calls[t].pc == Retrieve(level, cur, tries, depth)
    requires ConfigOk(c) && (cur.len > 0 ==> NodeSlotOk(c, cur, depth))
    ensures var s' := RetrieveStep(c, s, t, level, cur, tries, depth); Closer(c, s, s.calls[t].pc, s', s'.calls[t].pc)
  {
    hide Inv, MemoryOk, Linked, SlotsOk, SlotAt, TruncateToLen, GoodRow, TakenBefore, PathOf, HasBucket, LevelOk,
         BitsForLen;
    CallAt(c, s, t);
    InvMemory(c, s);
    BelowRoot(c, s.calls[t].rec.id, level, cur);
    if cur.len > 0 { LooksOn(c, s, level, cur, depth); }
  }

  lemma EvalCloser<M>(c: Config<M>, s: State<M>, t: nat, level: nat, cur: PrefixId, place: Place)
    requires ConfigOk(c) && t < |s.calls| && s.calls[t].pc == Eval(level, cur, place)
    requires LevelOk(c, s.calls[t].rec.id, level)
    requires HasNode(s, place) && BitsOk(c, BitsAt(s, place)) && BitsAt(s, place).level == level
    ensures var s' := EvalStep(c, s, t, level, cur, place); Closer(c, s, s.calls[t].pc, s', s'.calls[t].pc)
  {
    hide ConfigOk, GoodId, BitsOk, BitAnd, IntoStrideSize, BitPos, Zero, Cleaned, IsLast, BitsAt, HasNode;
  }

  lemma CasCloser<M>(c: Config<M>, s: State<M>, t: nat)
    requires Shaped(c, s, t) && (s.calls[t].pc.CasPtr? || s.calls[t].pc.CasPfx?)
    ensures var s' := Step(c, s, t); Closer(c, s, s.calls[t].pc, s', s'.calls[t].pc)
  {
    hide ConfigOk, GoodId, BitsOk, LevelOk, BitOr, WithPtrBit, BitPos, Cleaned, IsLast, Fits;
  }

  lemma StoreCloser<M>(c: Config<M>, s: State<M>, t: nat)
    requires Inv(c, s) && t < |s.calls| && Shaped(c, s, t) && (s.calls[t].pc.StoreNode? || s.calls[t].pc.StoreCas?)
    ensures var s' := Step(c, s, t); Closer(c, s, s.calls[t].pc, s', s'.calls[t].pc)
  {
    hide Inv, MemoryOk, Linked, SlotsOk, SlotAt, TruncateToLen, GoodRow, PathOf, HasBucket, TakenBefore, LevelOk,
         EmptyBits, NewStored, BitsForLen;
    CallAt(c, s, t);
    InvMemory(c, s);
    NodeSlots(c, s);
    WayDown(c.bits, c.nodeTable, s.nodes, s.calls[t].pc.id, s.calls[t].pc.depth);
  }

  /** Every step takes a call in the tree closer to the lookup of its prefix, if it does not give up. */
  lemma StepCloser<M>(c: Config<M>, s: State<M>, t: nat)
    requires Inv(c, s) && ConfigOk(c)
    requires t < |s.calls| && Shaped(c, s, t) && BeforeUpsert(s.calls[t].pc)
    ensures var s' := Step(c, s, t); Closer(c, s, s.calls[t].pc, s', s'.calls[t].pc)
  {
    hide Inv, ConfigOk, RetrieveStep, EvalStep, CasPtrStep, CasPfxStep, StoreStep, StoreCasStep, GoodId, LevelOk,
         BitsOk, NodeSlotOk, Fits, SlotTaken, BitsAt;
    match s.calls[t].pc
    case Start =>
    case Retrieve(level, cur, tries, depth) =>
      hide Closer;
      RetrieveCloser(c, s, t, level, cur, tries, depth);
    case Eval(level, cur, place) =>
      hide Closer;
      EvalCloser(c, s, t, level, cur, place);
    case CasPtr(_, _, _, _) =>
      hide Closer;
      CasCloser(c, s, t);
    case CasPfx(_, _, _, _) =>
      hide Closer;
      CasCloser(c, s, t);
    case _ =>
      hide Closer;
      StoreCloser(c, s, t);
  }

  lemma RetrieveShape<M>(c: Config<M>, s: State<M>, t: nat)
    requires Shaped(c, s, t) && s.calls[t].pc.Retrieve?
    ensures var pc := s.calls[t].pc;
      && ConfigOk(c) && (pc.cur.len > 0 ==> NodeSlotOk(c, pc.cur, pc.depth))
      && Step(c, s, t) == RetrieveStep(c, s, t, pc.level, pc.cur, pc.tries, pc.depth)
  {
  }

  lemma OnlyRetrieveGivesUp<M>(c: Config<M>, s: State<M>, t: nat)
    requires t < |s.calls| && Shaped(c, s, t) && !s.calls[t].pc.Done?
    requires Step(c, s, t).calls[t].pc == Done(NodeCreationMaxRetryError)
    ensures s.calls[t].pc.Retrieve?
  {
    hide Step, Shaped;
    if s.calls[t].pc.StoreNode? || s.calls[t].pc.StoreCas? {
      StoreGoesOn(c, s, t);
    } else if BeforeUpsert(s.calls[t].pc) {
      EvalGoesOn(c, s, t);
    } else {
      UpsertStays(c, s, t);
    }
  }

  lemma EvalGoesOn<M>(c: Config<M>, s: State<M>, t: nat)
    requires Shaped(c, s, t)
    requires var pc := s.calls[t].pc; pc.Start? || pc.Retrieve? || pc.Eval? || pc.CasPtr? || pc.CasPfx?
    ensures s.calls[t].pc.Retrieve? || Step(c, s, t).calls[t].pc != Done(NodeCreationMaxRetryError)
  {
    hide ConfigOk, GoodId, BitsOk, LevelOk, NodeSlotOk, Fits, RetrieveStep, WithPtrBit, BitAnd, BitOr, IntoStrideSize,
         BitPos, Zero, Cleaned, IsLast, BitsAt, HasNode;
  }

  lemma StoreGoesOn<M>(c: Config<M>, s: State<M>, t: nat)
    requires Shaped(c, s, t) && (s.calls[t].pc.StoreNode? || s.calls[t].pc.StoreCas?)
    ensures Step(c, s, t).calls[t].pc != Done(NodeCreationMaxRetryError)
  {
    hide ConfigOk, NodeSlotOk, SlotAt, HasBucket, PathOf, BitsForLen, NewStored, EmptyBits;
  }

  /**
   * A call only gives up looking for a node while another call is storing that node, and after it has looked for it
   * seven times before, in vain.
   */
  lemma GivesUpDuringStore<M>(c: Config<M>, s: State<M>, schedule: seq<nat>, t: nat)
    requires Initial(c, s) && IsSchedule(s, schedule) && t < |s.calls|
    ensures CanRun(c, s, schedule)
    ensures var m := After(c, s, schedule);
      && t < |m.calls| && Shaped(c, m, t)
      && (!m.calls[t].pc.Done? && Step(c, m, t).calls[t].pc == Done(NodeCreationMaxRetryError) ==>
            && m.calls[t].pc.Retrieve? && OtherStores(m, t, m.calls[t].pc.cur)
            && LooksInVain(c, m, t, m.calls[t].pc.cur) && VainLooks(c, s, schedule, t, m.calls[t].pc.cur) == 7)
  {
    hide Initial, Inv, NoDangling, OtherStores, Grows, Step, Shaped, LooksInVain, VainLooks;
    InitialIsOk(c, s);
    InitialLinks(c, s);
    RunKeeps(c, s, schedule);
    LinksRun(c, s, schedule);
    var m := After(c, s, schedule);
    StepKeeps(c, m, t);
    if !m.calls[t].pc.Done? && Step(c, m, t).calls[t].pc == Done(NodeCreationMaxRetryError) {
      GivesUpNow(c, m, t);
      var pc := m.calls[t].pc;
      RetrieveShape(c, m, t);
      LookupFails(c, m, t, pc.level, pc.cur, pc.tries, pc.depth);
      StartsUntried(c, s, t, pc.cur);
      TriedRun(c, s, schedule, t, pc.cur, 0);
    }
  }

  // ----- Running alone --------------------------------------------------------------------------------------------

  /** Only call t takes steps. */
  ghost predicate Only(schedule: seq<nat>, t: nat) {
    forall i :: 0 <= i < |schedule| ==> schedule[i] == t
  }

  /** Call t has moved; the other calls and the prefix store are as they were. */
  ghost predicate OnlyTree<M>(s: State<M>, s': State<M>, t: nat) {
    OnlyMoves(s, s', t) && s'.pfxs == s.pfxs && s'.versions == s.versions && s'.log == s.log
  }

  lemma RunMore<M>(c: Config<M>, s: State<M>, t: nat, rest: seq<nat>)
    requires Shaped(c, s, t) && CanRun(c, Step(c, s, t), rest)
    ensures CanRun(c, s, [t] + rest) && After(c, s, [t] + rest) == After(c, Step(c, s, t), rest)
  {
    hide Shaped, Step;
    assert ([t] + rest)[1..] == rest;
  }

  lemma QuietAfter<M>(s: State<M>, s': State<M>, t: nat)
    requires Quiet(s, t) && OnlyMoves(s, s', t)
    ensures Quiet(s', t)
  {
  }

  /** With no other call in the middle of storing, no step of a call in the tree gives up. */
  lemma QuietGoesOn<M>(c: Config<M>, s: State<M>, t: nat)
    requires Inv(c, s) && ConfigOk(c) && NoDangling(c, s) && Quiet(s, t)
    requires t < |s.calls| && Shaped(c, s, t) && BeforeUpsert(s.calls[t].pc)
    ensures Step(c, s, t).calls[t].pc != Done(NodeCreationMaxRetryError)
  {
    hide Inv, ConfigOk, NoDangling, Quiet, Shaped, Step, OtherStores;
    if Step(c, s, t).calls[t].pc == Done(NodeCreationMaxRetryError) {
      OnlyRetrieveGivesUp(c, s, t);
      var pc := s.calls[t].pc;
      RetrieveShape(c, s, t);
      LookupFails(c, s, t, pc.level, pc.cur, pc.tries, pc.depth);
      QuietStores(s, t, pc.cur);
    }
  }

  /** On its own, a call that is still in the tree gets to the lookup of its prefix, or gives up looking for a node. */
  lemma {:induction false} ReachesLookup<M>(c: Config<M>, s: State<M>, t: nat) returns (schedule: seq<nat>)
    requires Inv(c, s) && ConfigOk(c) && NoDangling(c, s)
    requires t < |s.calls| && BeforeUpsert(s.calls[t].pc)
    ensures Only(schedule, t) && CanRun(c, s, schedule)
    ensures var e := After(c, s, schedule);
      && Inv(c, e) && NoDangling(c, e) && OnlyTree(s, e, t)
      && (e.calls[t].pc == Lookup(0) || (e.calls[t].pc == Done(NodeCreationMaxRetryError) && !Quiet(s, t)))
    decreases Left(c, s.calls[t].pc), Stage(s.calls[t].pc), TriesLeft(s.calls[t].pc), Inner(c, s, s.calls[t].pc)
  {
    hide Inv, ConfigOk, NoDangling, Quiet, Shaped, Step, Grows, Left, Stage, TriesLeft, Inner, BeforeUpsert;
    StepKeeps(c, s, t);
    LinksStep(c, s, t);
    StepCloser(c, s, t);
    NodeStepsStay(c, s, t);
    if Quiet(s, t) { QuietGoesOn(c, s, t); }
    var m := Step(c, s, t);
    UpsertsOnly(m.calls[t].pc);
    if !BeforeUpsert(m.calls[t].pc) {
      schedule := [t];
      RunOne(c, s, t);
    } else {
      if Quiet(s, t) { QuietAfter(s, m, t); }
      var rest := ReachesLookup(c, m, t);
      schedule := [t] + rest;
      RunMore(c, s, t, rest);
    }
  }

  /** The call is past the tree, and not done. */
  predicate Upserting<M>(pc: Pc<M>) {
    !BeforeUpsert(pc) && !pc.Done?
  }

  /** The call found its slot empty, and by now the slot is taken. */
  ghost predicate Beaten<M>(c: Config<M>, s: State<M>, t: nat)
    requires ConfigOk(c) && t < |s.calls| && GoodId(c.bits, s.calls[t].rec.id)
  {
    var call := s.calls[t];
    && call.pc.Create? && call.pc.depth < |c.pfxTable[call.rec.id.len]|
    && SlotAt(c.bits, c.pfxTable, call.rec.id, call.pc.depth) in s.pfxs
  }

  function UpsertLeft<M>(c: Config<M>, s: State<M>, call: Call<M>): nat {
    match call.pc
    case Lookup(depth) =>
      if call.rec.id.len < |c.pfxTable| && depth <= |c.pfxTable[call.rec.id.len]|
      then 5 + |c.pfxTable[call.rec.id.len]| - depth else 5
    case Reload(_) => 4
    case LoadRecord(_) => 3
    case Merge(slot, version, _) => if slot in s.versions && s.versions[slot] == version then 1 else 2
    case _ => 1
  }

  /** On its own, an upsert gets closer to its end with every step, and is not beaten to its slot. */
  lemma UpsertCloser<M>(c: Config<M>, s: State<M>, t: nat)
    requires Inv(c, s) && t < |s.calls| && Shaped(c, s, t) && Upserting(s.calls[t].pc)
    ensures ConfigOk(c) && GoodId(c.bits, s.calls[t].rec.id)
    ensures var s' := Step(c, s, t);
      && OnlyMoves(s, s', t)
      && if s'.calls[t].pc.Done? then s'.calls[t].pc == Done(if Beaten(c, s, t) then PrefixAlreadyExist else Inserted)
         else Upserting(s'.calls[t].pc) && !Beaten(c, s, t) && !Beaten(c, s', t)
              && UpsertLeft(c, s', s'.calls[t]) < UpsertLeft(c, s, s.calls[t])
  {
    hide Inv, MemoryOk, Hosted, SlotsOk, SlotAt, TruncateToLen, GoodRow, PathOf, HasBucket, TakenBefore, BitsForLen,
         NewStored;
    CallAt(c, s, t);
    InvMemory(c, s);
    NodeSlots(c, s);
    if s.calls[t].pc.Lookup? { WayDown(c.bits, c.pfxTable, s.pfxs, s.calls[t].rec.id, s.calls[t].pc.depth); }
  }

  lemma {:induction false} UpsertEnds<M>(c: Config<M>, s: State<M>, t: nat) returns (schedule: seq<nat>)
    requires Inv(c, s) && t < |s.calls| && Upserting(s.calls[t].pc)
    ensures ConfigOk(c) && GoodId(c.bits, s.calls[t].rec.id)
    ensures Only(schedule, t) && CanRun(c, s, schedule) && OnlyMoves(s, After(c, s, schedule), t)
    ensures After(c, s, schedule).calls[t].pc == Done(if Beaten(c, s, t) then PrefixAlreadyExist else Inserted)
    decreases UpsertLeft(c, s, s.calls[t])
  {
    hide Inv, ConfigOk, Shaped, Step, Grows, GoodId, Beaten, UpsertLeft, Upserting;
    StepKeeps(c, s, t);
    UpsertCloser(c, s, t);
    var m := Step(c, s, t);
    if m.calls[t].pc.Done? {
      schedule := [t];
      RunOne(c, s, t);
    } else {
      var rest := UpsertEnds(c, m, t);
      schedule := [t] + rest;
      RunMore(c, s, t, rest);
    }
  }

  /**
   * The schedule is one of call t alone, and ends it. An upsert ends with Ok, unless another call has taken the slot
   * that it is about to fill. A call that is still in the tree ends with Ok, or gives up looking for a node; the latter
   * only if another call is in the middle of storing one.
   */
  ghost predicate EndsAlone<M>(c: Config<M>, s: State<M>, t: nat, schedule: seq<nat>) {
    && ConfigOk(c) && t < |s.calls| && GoodId(c.bits, s.calls[t].rec.id) && Only(schedule, t) && CanRun(c, s, schedule)
    && var e := After(c, s, schedule);
       && OnlyMoves(s, e, t) && e.calls[t].pc.Done?
       && (Upserting(s.calls[t].pc) ==> e.calls[t].pc == Done(if Beaten(c, s, t) then PrefixAlreadyExist else Inserted))
       && (BeforeUpsert(s.calls[t].pc) ==>
             e.calls[t].pc == Done(Inserted) || (e.calls[t].pc == Done(NodeCreationMaxRetryError) && !Quiet(s, t)))
  }

  /** Whatever the calls have done so far, an insert that runs on its own from here on ends. */
  lemma AloneEnds<M>(c: Config<M>, s: State<M>, before: seq<nat>, t: nat) returns (schedule: seq<nat>)
    requires Initial(c, s) && IsSchedule(s, before) && t < |s.calls|
    ensures CanRun(c, s, before) && EndsAlone(c, After(c, s, before), t, schedule)
  {
    hide Initial, Inv, ConfigOk, NoDangling, Shaped, Step, Grows, EndsAlone, IsSchedule;
    InitialIsOk(c, s);
    InitialLinks(c, s);
    RunKeeps(c, s, before);
    LinksRun(c, s, before);
    schedule := EndsFrom(c, After(c, s, before), t);
  }

  lemma EndsFrom<M>(c: Config<M>, s: State<M>, t: nat) returns (schedule: seq<nat>)
    requires Inv(c, s) && ConfigOk(c) && NoDangling(c, s) && t < |s.calls|
    ensures EndsAlone(c, s, t, schedule)
  {
    hide Inv, ConfigOk, NoDangling, Quiet, Shaped, Step, Grows, Beaten, BeforeUpsert, Upserting, GoodId;
    CallAt(c, s, t);
    CallIdGood(c, s.calls[t], s);
    UpsertsOnly(s.calls[t].pc);
    schedule := [];
    if Upserting(s.calls[t].pc) {
      schedule := UpsertEnds(c, s, t);
    } else if BeforeUpsert(s.calls[t].pc) {
      schedule := FromTree(c, s, t);
    }
  }

  lemma CallIdGood<M>(c: Config<M>, call: Call<M>, s: State<M>)
    requires ConfigOk(c) && CallOk(c, s, call.rec.id, call.pc)
    ensures GoodId(c.bits, call.rec.id)
  {
  }

  lemma FromTree<M>(c: Config<M>, s: State<M>, t: nat) returns (schedule: seq<nat>)
    requires Inv(c, s) && ConfigOk(c) && NoDangling(c, s) && t < |s.calls|
    requires BeforeUpsert(s.calls[t].pc)
    ensures Only(schedule, t) && CanRun(c, s, schedule) && OnlyMoves(s, After(c, s, schedule), t)
    ensures var pc := After(c, s, schedule).calls[t].pc;
      pc == Done(Inserted) || (pc == Done(NodeCreationMaxRetryError) && !Quiet(s, t))
  {
    hide Inv, ConfigOk, NoDangling, Quiet, Beaten, Shaped, Step, BeforeUpsert, Upserting, GoodId;
    schedule := ReachesLookup(c, s, t);
    var e := After(c, s, schedule);
    if e.calls[t].pc == Lookup(0) {
      UpsertsOnly(e.calls[t].pc);
      var rest := UpsertEnds(c, e, t);
      NotBeaten(c, e, t);
      RunConcat(c, s, schedule, rest);
      schedule := schedule + rest;
    }
  }

  lemma UpsertsOnly<M>(pc: Pc<M>)
    ensures Upserting(pc) ==> !BeforeUpsert(pc)
    ensures pc.Done? || Upserting(pc) || BeforeUpsert(pc)
    ensures pc == Lookup(0) ==> Upserting(pc)
    ensures pc.Done? ==> !BeforeUpsert(pc)
  {
  }

  lemma NotBeaten<M>(c: Config<M>, s: State<M>, t: nat)
    requires ConfigOk(c) && t < |s.calls| && GoodId(c.bits, s.calls[t].rec.id) && s.calls[t].pc == Lookup(0)
    ensures !Beaten(c, s, t)
  {
  }
}
