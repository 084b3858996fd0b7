/** Whole runs: what holds after any schedule of concurrent inserts into a fresh store. */
module ProtocolRuns {
  import opened Wrappers
  import opened Af
  import opened Stride
  import opened Records
  import opened Chain
  import opened PrefixStores
  import opened Protocol
  import opened ProtocolInv
  import opened ProtocolSteps

  /** A fresh store: an empty root node, nothing else, and any number of calls about to start. */
  ghost predicate Initial<M>(c: Config<M>, s: State<M>) {
    && ConfigOk(c) && |c.strides| > 0 && IsStride(c.strides[0])
    && s.root == EmptyBits(c, 0)
    && s.nodes == map[] && s.pfxs == map[] && s.versions == map[] && s.log == []
    && forall t :: 0 <= t < |s.calls| ==> GoodId(c.bits, s.calls[t].rec.id) && s.calls[t].pc == Start
  }

  lemma InitialIsOk<M>(c: Config<M>, s: State<M>)
    requires Initial(c, s)
    ensures Inv(c, s)
  {
    hide GoodRow, Canonical, Prefixes;
    EmptyBitsOk(c, 0);
    hide EmptyBits;
    assert Owners(s.nodes) == map[] && Owners(s.pfxs) == map[];
    NothingLogged(c, s);
    NothingStored(c, s);
  }

  lemma NothingStored<M>(c: Config<M>, s: State<M>)
    requires ConfigOk(c) && s.nodes == map[] && s.pfxs == map[] && s.versions == map[]
    requires BitsOk(c, s.root) && s.root.level == 0
    ensures MemoryOk(c, s)
  {
    hide GoodRow, BitsOk;
    assert Owners(s.nodes) == map[] && Owners(s.pfxs) == map[];
  }

  lemma NothingLogged<M>(c: Config<M>, s: State<M>)
    requires s.pfxs == map[] && s.log == [] && forall t :: 0 <= t < |s.calls| ==> s.calls[t].pc == Start
    ensures LogOk(c, s)
  {
    assert Applied(s.calls, s.log) == [];
    assert Prefixes(s.pfxs) == map[];
  }

  lemma NodeStepKeeps<M>(c: Config<M>, s: State<M>, t: nat)
    requires Inv(c, s) && t < |s.calls| && Shaped(c, s, t)
    requires s.calls[t].pc.Start? || s.calls[t].pc.Retrieve? || s.calls[t].pc.Eval?
    ensures Inv(c, Step(c, s, t)) && Grows(c, s, Step(c, s, t))
  {
    hide Inv, Grows, RetrieveStep, EvalStep, GoodId, LevelOk, BitsOk, NodeSlotOk, Fits, GoodRow, HasNode;
    match s.calls[t].pc
    case Start => StartKeeps(c, s, t);
    case Retrieve(level, cur, tries, depth) => RetrieveKeeps(c, s, t, level, cur, tries, depth);
    case Eval(level, cur, place) => EvalKeeps(c, s, t, level, cur, place);
  }

  lemma CasStepKeeps<M>(c: Config<M>, s: State<M>, t: nat)
    requires Inv(c, s) && t < |s.calls| && Shaped(c, s, t)
    requires s.calls[t].pc.CasPtr? || s.calls[t].pc.CasPfx?
    ensures Inv(c, Step(c, s, t)) && Grows(c, s, Step(c, s, t))
  {
    hide Inv, Grows, CasPtrStep, CasPfxStep, GoodId, BitsOk, NodeSlotOk, Fits, GoodRow, HasNode;
    match s.calls[t].pc
    case CasPtr(level, cur, place, seen) => CasPtrKeeps(c, s, t, level, cur, place, seen);
    case CasPfx(level, cur, place, seen) => CasPfxKeeps(c, s, t, level, cur, place, seen);
  }

  lemma StoreStepKeeps<M>(c: Config<M>, s: State<M>, t: nat)
    requires Inv(c, s) && t < |s.calls| && Shaped(c, s, t)
    requires s.calls[t].pc.StoreNode? || s.calls[t].pc.StoreCas?
    ensures Inv(c, Step(c, s, t)) && Grows(c, s, Step(c, s, t))
  {
    hide Inv, Grows, StoreStep, StoreCasStep, GoodId, LevelOk, BitsOk, NodeSlotOk, Fits, GoodRow, HasNode;
    match s.calls[t].pc
    case StoreNode(level, id, depth) => StoreKeeps(c, s, t, level, id, depth);
    case StoreCas(level, id, depth) => StoreCasKeeps(c, s, t, level, id, depth);
  }

  lemma UpsertStepKeeps<M>(c: Config<M>, s: State<M>, t: nat)
    requires Inv(c, s) && t < |s.calls| && Shaped(c, s, t)
    requires var pc := s.calls[t].pc; pc.Lookup? || pc.Reload? || pc.Create? || pc.LoadRecord? || pc.Merge? || pc.Done?
    ensures Inv(c, Step(c, s, t)) && Grows(c, s, Step(c, s, t))
  {
    hide Inv, Grows, LookupStep, ReloadStep, CreateStep, LoadStep, MergeStep, GoodId, LevelOk, BitsOk, NodeSlotOk, Fits,
         GoodRow, HasNode;
    match s.calls[t].pc
    case Lookup(depth) => LookupKeeps(c, s, t, depth);
    case Reload(depth) => ReloadKeeps(c, s, t, depth);
    case Create(depth) => CreateKeeps(c, s, t, depth);
    case LoadRecord(slot) => LoadKeeps(c, s, t, slot);
    case Merge(slot, version, meta) => MergeKeeps(c, s, t, slot, version, meta);
    case Done(_) => ReflexiveSelf(c, s);
  }

  /** Every step of every call keeps the invariant, and memory only grows. */
  lemma StepKeeps<M>(c: Config<M>, s: State<M>, t: nat)
    requires Inv(c, s) && t < |s.calls|
    ensures Shaped(c, s, t)
    ensures Inv(c, Step(c, s, t)) && Grows(c, s, Step(c, s, t))
  {
    ReadyToStep(c, s, t);
    hide Inv, Grows, Step, Shaped;
    match s.calls[t].pc
    case Start => NodeStepKeeps(c, s, t);
    case Retrieve(_, _, _, _) => NodeStepKeeps(c, s, t);
    case Eval(_, _, _) => NodeStepKeeps(c, s, t);
    case CasPtr(_, _, _, _) => CasStepKeeps(c, s, t);
    case CasPfx(_, _, _, _) => CasStepKeeps(c, s, t);
    case StoreNode(_, _, _) => StoreStepKeeps(c, s, t);
    case StoreCas(_, _, _) => StoreStepKeeps(c, s, t);
    case _ => UpsertStepKeeps(c, s, t);
  }

  lemma ReflexiveSelf<M>(c: Config<M>, s: State<M>)
    requires Inv(c, s)
    ensures Grows(c, s, s)
  {
    hide CallsOk, LogOk, Grows;
    InvMemory(c, s);
    Reflexive(c, s, s);
  }

  lemma StartKeeps<M>(c: Config<M>, s: State<M>, t: nat)
    requires Inv(c, s) && t < |s.calls| && s.calls[t].pc == Start
    ensures Inv(c, Go(s, t, Retrieve(0, PrefixId(0, 0), 0, 0)))
    ensures Grows(c, s, Go(s, t, Retrieve(0, PrefixId(0, 0), 0, 0)))
  {
    hide Inv, Grows, GoodRow;
    CallAt(c, s, t);
    FirstLevel(c, s.calls[t].rec.id);
    GoKeeps(c, s, t, Retrieve(0, PrefixId(0, 0), 0, 0));
  }

  lemma FirstLevel<M>(c: Config<M>, id: PrefixId)
    requires ConfigOk(c) && GoodId(c.bits, id)
    ensures AtLevel(c, id, 0, PrefixId(0, 0))
  {
    assert Offset(c.strides, 0) == 0;
    assert |c.strides| > 0;
  }

  /** Every step of the schedule is possible in its turn. */
  ghost predicate CanRun<M>(c: Config<M>, s: State<M>, schedule: seq<nat>)
    decreases |schedule|
  {
    schedule != [] ==> Shaped(c, s, schedule[0]) && CanRun(c, Step(c, s, schedule[0]), schedule[1..])
  }

  /** The state after a schedule: the calls take one step each, in the order given. */
  ghost function After<M>(c: Config<M>, s: State<M>, schedule: seq<nat>): State<M>
    requires CanRun(c, s, schedule)
    decreases |schedule|
  {
    if schedule == [] then s else After(c, Step(c, s, schedule[0]), schedule[1..])
  }

  /** A schedule may name any calls in any order, any number of times. */
  ghost predicate IsSchedule<M>(s: State<M>, schedule: seq<nat>) {
    forall i :: 0 <= i < |schedule| ==> schedule[i] < |s.calls|
  }

  lemma GrowsTwice<M>(c: Config<M>, s: State<M>, m: State<M>, s': State<M>)
    requires ConfigOk(c) && Grows(c, s, m) && Grows(c, m, s')
    ensures Grows(c, s, s')
  {
    hide PtrSet, PfxSet, BitsOk, ConfigOk;
  }

  /**
   * Every schedule can be run to its end, and keeps the invariant; over the whole run no bit is lost,
   * no slot changes its owner, and records change only by version.
   */
  lemma {:induction false} RunKeeps<M>(c: Config<M>, s: State<M>, schedule: seq<nat>)
    requires Inv(c, s) && IsSchedule(s, schedule)
    ensures CanRun(c, s, schedule) && Inv(c, After(c, s, schedule)) && SameRecs(s, After(c, s, schedule))
    ensures ConfigOk(c) && Grows(c, s, After(c, s, schedule))
    decreases |schedule|
  {
    hide Inv, Grows, ConfigOk, Shaped, Step;
    ConfigOf(c, s);
    if schedule == [] {
      ReflexiveSelf(c, s);
    } else {
      StepKeeps(c, s, schedule[0]);
      var m := Step(c, s, schedule[0]);
      RunKeeps(c, m, schedule[1..]);
      GrowsTwice(c, s, m, After(c, s, schedule));
    }
  }

  lemma ConfigOf<M>(c: Config<M>, s: State<M>)
    requires Inv(c, s)
    ensures ConfigOk(c)
  {
  }

  // ----- What holds in every reachable state -----------------------------------------------------------------

  /** No call ever runs out of storage levels or finds a bucket missing. */
  lemma NeverStuck<M>(c: Config<M>, s: State<M>, schedule: seq<nat>, t: nat)
    requires Initial(c, s) && t < |s.calls| && IsSchedule(s, schedule)
    ensures CanRun(c, s, schedule) && t < |After(c, s, schedule).calls|
    ensures var pc := After(c, s, schedule).calls[t].pc;
      pc.Done? ==> pc.result.Inserted? || pc.result.NodeCreationMaxRetryError? || pc.result.PrefixAlreadyExist?
  {
    hide Initial, Inv;
    InitialIsOk(c, s);
    RunKeeps(c, s, schedule);
    CallAt(c, After(c, s, schedule), t);
  }

  /** No id occupies two slots of the node store. */
  lemma OneSlotPerNode<M>(c: Config<M>, s: State<M>, p: Slot, q: Slot)
    requires MemoryOk(c, s) && p in s.nodes && q in s.nodes && s.nodes[p].prefix == s.nodes[q].prefix
    ensures p == q
  {
    hide NodeOk, Hosted;
  }

  /** The lookup of a node: down its chain, until it is found or the chain ends. */
  function SearchLevel<D>(bits: nat, table: Table, slots: Slots<D>, id: PrefixId, depth: nat): (r: Option<Slot>)
    requires GoodTable(bits, table) && GoodId(bits, id) && depth < |table[id.len]|
    decreases |table[id.len]| - depth
  {
    var slot := SlotAt(bits, table, id, depth);
    if slot !in slots then None
    else if slots[slot].prefix == id then Some(slot)
    else if BitsForLen(table, id.len, depth + 1) > 0 then SearchLevel(bits, table, slots, id, depth + 1)
    else None
  }

  /** The lookup finds an id exactly if it is stored. */
  lemma {:induction false} SearchFinds<D>(bits: nat, table: Table, slots: Slots<D>, id: PrefixId, depth: nat)
    requires SlotsOk(bits, table, slots) && GoodId(bits, id) && depth < |table[id.len]|
    requires TakenBefore(bits, table, Owners(slots), id, depth)
    ensures var r := SearchLevel(bits, table, slots, id, depth);
      if id in Owners(slots).Values then r.Some? && r.value in slots && slots[r.value].prefix == id else r.None?
    decreases |table[id.len]| - depth
  {
    hide SlotOk, TruncateToLen, GoodRow, PathOf;
    var slot := SlotAt(bits, table, id, depth);
    WayDown(bits, table, slots, id, depth);
    if slot !in slots {
      FreeMeansAbsent(bits, table, Owners(slots), id, depth);
    } else if slots[slot].prefix == id {
      assert Owners(slots)[slot] == id;
    } else {
      SearchFinds(bits, table, slots, id, depth + 1);
    }
  }

  /** An id that is stored is found, in the same slot, in every later state. */
  lemma StaysRetrievable<M>(c: Config<M>, s: State<M>, schedule: seq<nat>, p: Slot)
    requires Inv(c, s) && p in s.nodes && IsSchedule(s, schedule)
    ensures CanRun(c, s, schedule)
    ensures ConfigOk(c) && GoodId(c.bits, s.nodes[p].prefix) && 0 < |c.nodeTable[s.nodes[p].prefix.len]|
    ensures SearchLevel(c.bits, c.nodeTable, After(c, s, schedule).nodes, s.nodes[p].prefix, 0) == Some(p)
  {
    hide Initial, Inv, Grows, SearchLevel, GoodId;
    RunKeeps(c, s, schedule);
    var s' := After(c, s, schedule);
    InvMemory(c, s');
    KeptBySlot(c, s, s', p);
    FoundInSlot(c, s', p);
  }

  lemma KeptBySlot<M>(c: Config<M>, s: State<M>, s': State<M>, p: Slot)
    requires ConfigOk(c) && Grows(c, s, s') && p in s.nodes
    ensures p in s'.nodes && s'.nodes[p].prefix == s.nodes[p].prefix
  {
    hide BitsGrow, ConfigOk;
  }

  /** The lookup of a stored node ends in its slot. */
  lemma FoundInSlot<M>(c: Config<M>, s: State<M>, p: Slot)
    requires MemoryOk(c, s) && p in s.nodes
    ensures ConfigOk(c) && GoodId(c.bits, s.nodes[p].prefix) && 0 < |c.nodeTable[s.nodes[p].prefix.len]|
    ensures SearchLevel(c.bits, c.nodeTable, s.nodes, s.nodes[p].prefix, 0) == Some(p)
  {
    hide MemoryOk, SlotsOk, GoodRow, SearchLevel, GoodId, SlotAt;
    StoredIsGood(c, s, p);
    var id := s.nodes[p].prefix;
    assert Owners(s.nodes)[p] == id;
    SearchFinds(c.bits, c.nodeTable, s.nodes, id, 0);
    OneSlotPerNode(c, s, SearchLevel(c.bits, c.nodeTable, s.nodes, id, 0).value, p);
  }

  lemma StoredIsGood<M>(c: Config<M>, s: State<M>, p: Slot)
    requires MemoryOk(c, s) && p in s.nodes
    ensures ConfigOk(c) && GoodId(c.bits, s.nodes[p].prefix) && 0 < |c.nodeTable[s.nodes[p].prefix.len]|
    ensures SlotsOk(c.bits, c.nodeTable, s.nodes)
  {
    hide Hosted, LinkedBy;
    assert NodeOk(c, s, p);
  }

  /**
   * Bits precede publication: the parent of every stored node is stored, with the pointer bit for it
   * set, and every stored prefix has its prefix bit set in its stored hosting node.
   */
  lemma BitsPrecede<M>(c: Config<M>, s: State<M>, schedule: seq<nat>)
    requires Initial(c, s) && IsSchedule(s, schedule)
    ensures ConfigOk(c) && CanRun(c, s, schedule)
    ensures var s' := After(c, s, schedule);
      && (forall p :: p in s'.nodes ==> Linked(c, s', s'.nodes[p].prefix, s'.nodes[p].meta.level))
      && (forall q :: q in s'.pfxs ==> Hosted(c, s', s'.pfxs[q].prefix))
  {
    hide Initial, Inv, Linked, Hosted, SlotsOk, BitsOk;
    InitialIsOk(c, s);
    RunKeeps(c, s, schedule);
    var s' := After(c, s, schedule);
    InvMemory(c, s');
    assert forall p :: p in s'.nodes ==> NodeOk(c, s', p);
  }

  /** What the evaluation of a nibble asks for: the pointer bit, or at the last stride the prefix bit. */
  ghost predicate AskedFor<M>(c: Config<M>, b: NodeBits, id: PrefixId, level: nat)
    requires ConfigOk(c) && LevelOk(c, id, level)
  {
    if IsLast(c, id, level) then PfxSet(c, b, Nibble(c, id, level), NibbleLen(c, id, level))
    else PtrSet(c, b, Nibble(c, id, level))
  }

  ghost predicate Evaluating<M>(pc: Pc<M>) {
    pc.Eval? || pc.CasPtr? || pc.CasPfx?
  }

  lemma EvalAsked<M>(c: Config<M>, s: State<M>, t: nat, level: nat, cur: PrefixId, place: Place)
    requires ConfigOk(c) && t < |s.calls| && LevelOk(c, s.calls[t].rec.id, level)
    requires HasNode(s, place) && BitsOk(c, BitsAt(s, place)) && BitsAt(s, place).level == level
    requires !Evaluating(EvalStep(c, s, t, level, cur, place).calls[t].pc)
    ensures var s' := EvalStep(c, s, t, level, cur, place);
      HasNode(s', place) && AskedFor(c, BitsAt(s', place), s.calls[t].rec.id, level)
  {
    hide PtrSet, PfxSet, BitAnd, IntoStrideSize, BitPos, Zero, Nibble, NibbleLen, Fits, GoodId, GoodRow, TruncateToLen;
    var id, b := s.calls[t].rec.id, BitsAt(s, place);
    LevelWithin(c, level);
    if IsLast(c, id, level) { PfxTest(c, id, level, b); } else { PtrTest(c, id, level, b); }
  }

  lemma CasPtrAsked<M>(c: Config<M>, s: State<M>, t: nat, level: nat, cur: PrefixId, place: Place, seen: Bitmap)
    requires ConfigOk(c) && t < |s.calls| && LevelOk(c, s.calls[t].rec.id, level)
    requires HasNode(s, place) && Fits(PtrWidth(c.strides[level]), seen)
    requires !IsLast(c, s.calls[t].rec.id, level) && BitsOk(c, BitsAt(s, place)) && BitsAt(s, place).level == level
    requires !Evaluating(CasPtrStep(c, s, t, level, cur, place, seen).calls[t].pc)
    ensures var s' := CasPtrStep(c, s, t, level, cur, place, seen);
      HasNode(s', place) && AskedFor(c, BitsAt(s', place), s.calls[t].rec.id, level)
  {
    hide PtrSet, PfxSet, WithPtrBit, Nibble, NibbleLen, Fits, GoodId, GoodRow,
         TruncateToLen;
    var id, b := s.calls[t].rec.id, BitsAt(s, place);
    LevelWithin(c, level);
    PtrBitGrows(c, id, level, b);
  }

  lemma CasPfxAsked<M>(c: Config<M>, s: State<M>, t: nat, level: nat, cur: PrefixId, place: Place, seen: Bitmap)
    requires ConfigOk(c) && t < |s.calls| && LevelOk(c, s.calls[t].rec.id, level) && HasNode(s, place)
    requires IsLast(c, s.calls[t].rec.id, level) && BitsOk(c, BitsAt(s, place)) && BitsAt(s, place).level == level
    requires !Evaluating(CasPfxStep(c, s, t, level, cur, place, seen).calls[t].pc)
    ensures var s' := CasPfxStep(c, s, t, level, cur, place, seen);
      HasNode(s', place) && AskedFor(c, BitsAt(s', place), s.calls[t].rec.id, level)
  {
    hide PtrSet, PfxSet, BitOr, BitPos, Nibble, NibbleLen, Fits, GoodId, GoodRow, TruncateToLen;
    PfxBitGrows(c, s.calls[t].rec.id, level, BitsAt(s, place));
  }

  lemma EvaluatingIsOk<M>(c: Config<M>, s: State<M>, t: nat)
    requires Inv(c, s) && t < |s.calls| && Evaluating(s.calls[t].pc)
    ensures ConfigOk(c) && HasNode(s, s.calls[t].pc.place) && BitsOk(c, BitsAt(s, s.calls[t].pc.place))
    ensures BitsAt(s, s.calls[t].pc.place).level == s.calls[t].pc.level
    ensures LevelOk(c, s.calls[t].rec.id, s.calls[t].pc.level)
    ensures s.calls[t].pc.CasPtr? ==> !IsLast(c, s.calls[t].rec.id, s.calls[t].pc.level)
    ensures s.calls[t].pc.CasPfx? ==> IsLast(c, s.calls[t].rec.id, s.calls[t].pc.level)
  {
    hide Inv, MemoryOk, GoodRow, Fits, TruncateToLen;
    CallAt(c, s, t);
    InvMemory(c, s);
    PlaceBits(c, s, s.calls[t].pc.place);
  }

  /** When the evaluation of a node is over, the bit it asked for is set in that node. */
  lemma BitIsSetAfterEval<M>(c: Config<M>, s: State<M>, t: nat)
    requires Inv(c, s) && t < |s.calls| && Evaluating(s.calls[t].pc) && Shaped(c, s, t)
    requires !Evaluating(Step(c, s, t).calls[t].pc)
    ensures ConfigOk(c) && LevelOk(c, s.calls[t].rec.id, s.calls[t].pc.level)
    ensures HasNode(Step(c, s, t), s.calls[t].pc.place)
    ensures AskedFor(c, BitsAt(Step(c, s, t), s.calls[t].pc.place), s.calls[t].rec.id, s.calls[t].pc.level)
  {
    hide Inv, AskedFor, EvalStep, CasPtrStep, CasPfxStep, BitsOk, LevelOk, GoodId, GoodRow, Fits, IsLast, HasNode,
         BitsAt, Evaluating;
    EvaluatingIsOk(c, s, t);
    AreEvaluating(s.calls[t].pc);
    match s.calls[t].pc
    case Eval(level, cur, place) => EvalAsked(c, s, t, level, cur, place);
    case CasPtr(level, cur, place, seen) => CasPtrAsked(c, s, t, level, cur, place, seen);
    case CasPfx(level, cur, place, seen) => CasPfxAsked(c, s, t, level, cur, place, seen);
  }

  lemma AreEvaluating<M>(pc: Pc<M>)
    requires Evaluating(pc)
    ensures pc.Eval? || pc.CasPtr? || pc.CasPfx?
  {
  }

  // ----- What the log says -----------------------------------------------------------------------------------

  /**
   * In every reachable state the log lists the inserts that returned Ok and no others, each once, and the
   * store holds what they amount to in that order, each applied to the record that it is logged with.
   */
  lemma OkChangesOnce<M>(c: Config<M>, s: State<M>, schedule: seq<nat>)
    requires Initial(c, s) && IsSchedule(s, schedule)
    ensures CanRun(c, s, schedule)
    ensures var s' := After(c, s, schedule);
      && LogInRange(|s.calls|, s'.log)
      && (forall i, j :: 0 <= i < j < |s'.log| ==> s'.log[i].call != s'.log[j].call)
      && (forall t: nat :: Changed(s'.log, t) <==> t < |s'.calls| && s'.calls[t].pc == Done(Inserted))
      && Distinct(s'.pfxs)
      && Prefixes(s'.pfxs) == Run(Applied(s.calls, s'.log), RecMerge(c.merge))
  {
    hide Initial, MemoryOk, CallsOk, Prefixes, Run, Distinct, RecMerge, Changed;
    InitialIsOk(c, s);
    RunKeeps(c, s, schedule);
    var s' := After(c, s, schedule);
    InvMemory(c, s');
    TableOf(c, s');
    assert Applied(s.calls, s'.log) == Applied(s'.calls, s'.log);
  }

  // ----- Schedules one after the other -------------------------------------------------------------------------

  lemma {:induction false} RunConcat<M>(c: Config<M>, s: State<M>, a: seq<nat>, b: seq<nat>)
    requires CanRun(c, s, a) && CanRun(c, After(c, s, a), b)
    ensures CanRun(c, s, a + b) && After(c, s, a + b) == After(c, After(c, s, a), b)
    decreases |a|
  {
    hide Shaped, Step;
    if a == [] {
      assert a + b == b;
    } else {
      RunConcat(c, Step(c, s, a[0]), a[1..], b);
      assert (a + b)[0] == a[0] && (a + b)[1..] == a[1..] + b;
    }
  }

  lemma RunOne<M>(c: Config<M>, s: State<M>, t: nat)
    requires Shaped(c, s, t)
    ensures CanRun(c, s, [t]) && After(c, s, [t]) == Step(c, s, t)
  {
    hide Shaped, Step;
    assert CanRun(c, Step(c, s, t), []);
    assert [t][1..] == [];
    assert After(c, s, [t]) == After(c, Step(c, s, t), []);
  }

  // ----- The two parts of an insert ---------------------------------------------------------------------------

  /** The call is still on its way through the tree. */
  predicate BeforeUpsert<M>(pc: Pc<M>) {
    pc.Start? || pc.Retrieve? || pc.Eval? || pc.CasPtr? || pc.CasPfx? || pc.StoreNode? || pc.StoreCas?
  }

  /** The prefix store is untouched, and the call goes on through the tree, starts its upsert or gives up. */
  ghost predicate StaysOff<M>(s: State<M>, s': State<M>, t: nat) {
    && OnlyMoves(s, s', t) && s'.pfxs == s.pfxs && s'.versions == s.versions && s'.log == s.log
    && (BeforeUpsert(s'.calls[t].pc) || s'.calls[t].pc == Lookup(0) || s'.calls[t].pc == Done(NodeNotFound)
        || s'.calls[t].pc == Done(NodeCreationMaxRetryError) || s'.calls[t].pc == Done(OutOfLevels)
        || s'.calls[t].pc == Done(MissingBucket))
  }

  lemma StartStays<M>(s: State<M>, t: nat)
    requires t < |s.calls|
    ensures StaysOff(s, Go(s, t, Retrieve(0, PrefixId(0, 0), 0, 0)), t)
  {
  }

  lemma RetrieveStays<M>(c: Config<M>, s: State<M>, t: nat, level: nat, cur: PrefixId, tries: nat, depth: nat)
    requires ConfigOk(c) && t < |s.calls| && (cur.len > 0 ==> NodeSlotOk(c, cur, depth))
    ensures StaysOff(s, RetrieveStep(c, s, t, level, cur, tries, depth), t)
  {
    hide ConfigOk, NodeSlotOk, SlotAt, HasBucket, PathOf, BitsForLen;
  }

  lemma EvalStays<M>(c: Config<M>, s: State<M>, t: nat, level: nat, cur: PrefixId, place: Place)
    requires ConfigOk(c) && t < |s.calls| && LevelOk(c, s.calls[t].rec.id, level)
    requires HasNode(s, place) && BitsOk(c, BitsAt(s, place)) && BitsAt(s, place).level == level
    ensures StaysOff(s, EvalStep(c, s, t, level, cur, place), t)
  {
    hide ConfigOk, LevelOk, BitsOk, BitAnd, IntoStrideSize, BitPos, Zero, Cleaned, IsLast, BitsAt;
  }

  lemma CasStays<M>(c: Config<M>, s: State<M>, t: nat)
    requires Shaped(c, s, t) && (s.calls[t].pc.CasPtr? || s.calls[t].pc.CasPfx?)
    ensures StaysOff(s, Step(c, s, t), t)
  {
    hide ConfigOk, LevelOk, BitsOk, WithPtrBit, BitOr, BitPos, Zero, Cleaned, IsLast, BitsAt, Fits;
  }

  lemma StoreStays<M>(c: Config<M>, s: State<M>, t: nat)
    requires Shaped(c, s, t) && (s.calls[t].pc.StoreNode? || s.calls[t].pc.StoreCas?)
    ensures StaysOff(s, Step(c, s, t), t)
  {
    hide ConfigOk, NodeSlotOk, SlotAt, HasBucket, PathOf, BitsForLen, NewStored, EmptyBits;
  }

  /** On its way through the tree a call leaves the prefix store alone. */
  lemma NodeStepsStay<M>(c: Config<M>, s: State<M>, t: nat)
    requires Shaped(c, s, t) && BeforeUpsert(s.calls[t].pc)
    ensures StaysOff(s, Step(c, s, t), t)
  {
    hide StaysOff, ConfigOk, RetrieveStep, EvalStep, CasPtrStep, CasPfxStep, StoreStep, StoreCasStep, GoodId, LevelOk,
         BitsOk, NodeSlotOk, Fits;
    match s.calls[t].pc
    case Start => StartStays(s, t);
    case Retrieve(level, cur, tries, depth) => RetrieveStays(c, s, t, level, cur, tries, depth);
    case Eval(level, cur, place) => EvalStays(c, s, t, level, cur, place);
    case CasPtr(_, _, _, _) => CasStays(c, s, t);
    case CasPfx(_, _, _, _) => CasStays(c, s, t);
    case _ => StoreStays(c, s, t);
  }
}
