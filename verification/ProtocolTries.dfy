/** How often a call looks for a node: it gives up after eight looks in vain, no sooner and no later. */
module ProtocolTries {
  import opened Af
  import opened Stride
  import opened Chain
  import opened PrefixStores
  import opened Protocol
  import opened ProtocolInv
  import opened ProtocolSteps
  import opened ProtocolRuns
  import opened ProtocolLinks

  /** The next step of call t looks for the node at a slot that is empty, and the node is not stored. */
  ghost predicate LooksInVain<M>(c: Config<M>, s: State<M>, t: nat, nid: PrefixId) {
    && ConfigOk(c) && t < |s.calls|
    && var pc := s.calls[t].pc;
       && pc.Retrieve? && pc.cur == nid && !NodeStored(s, nid)
       && NodeSlotOk(c, nid, pc.depth) && SlotAt(c.bits, c.nodeTable, nid, pc.depth) !in s.nodes
  }

  /** How many steps of the schedule are looks of call t for the node, in vain. */
  ghost function VainLooks<M>(c: Config<M>, s: State<M>, schedule: seq<nat>, t: nat, nid: PrefixId): nat
    requires CanRun(c, s, schedule)
    decreases |schedule|
  {
    if schedule == [] then 0
    else (if schedule[0] == t && LooksInVain(c, s, t, nid) then 1 else 0)
         + VainLooks(c, Step(c, s, schedule[0]), schedule[1..], t, nid)
  }

  // ----- What a step of a lookup does --------------------------------------------------------------------------

  /** A look in vain sends the call back to the top, or makes it give up; any other look finds the node or goes down. */
  lemma LookGoes<M>(c: Config<M>, s: State<M>, t: nat, level: nat, cur: PrefixId, tries: nat, depth: nat)
    requires Inv(c, s) && Shaped(c, s, t) && s.calls[t].pc == Retrieve(level, cur, tries, depth)
    ensures var pc := Step(c, s, t).calls[t].pc;
      if LooksInVain(c, s, t, cur)
      then pc == if tries >= 7 then Done(NodeCreationMaxRetryError) else Retrieve(level, cur, tries + 1, 0)
      else pc == Retrieve(level, cur, tries, depth + 1) || (pc.Eval? && pc.cur == cur)
  {
    hide Inv, MemoryOk, Linked, SlotsOk, SlotAt, TruncateToLen, GoodRow, TakenBefore, PathOf, HasBucket, LevelOk,
         BitsForLen, NodeStored;
    CallAt(c, s, t);
    InvMemory(c, s);
    BelowRoot(c, s.calls[t].rec.id, level, cur);
    if cur.len > 0 {
      LooksOn(c, s, level, cur, depth);
      EmptyIsAbsent(c, s, level, cur, depth);
    }
  }

  /** A node behind an empty slot is not stored. */
  lemma EmptyIsAbsent<M>(c: Config<M>, s: State<M>, level: nat, cur: PrefixId, depth: nat)
    requires MemoryOk(c, s) && LookingOk(c, s, level, cur, depth)
    ensures SlotAt(c.bits, c.nodeTable, cur, depth) !in s.nodes ==> !NodeStored(s, cur)
  {
    hide MemoryOk, Linked, SlotsOk, SlotAt, TruncateToLen, GoodRow, TakenBefore;
    NodeSlots(c, s);
    StoredIsOwned(s, cur);
    if SlotAt(c.bits, c.nodeTable, cur, depth) !in s.nodes {
      FreeMeansAbsent(c.bits, c.nodeTable, Owners(s.nodes), cur, depth);
    }
  }

  lemma StoredIsOwned<M>(s: State<M>, nid: PrefixId)
    ensures NodeStored(s, nid) ==> nid in Owners(s.nodes).Values
  {
    if NodeStored(s, nid) {
      var p :| p in s.nodes && s.nodes[p].prefix == nid;
      assert Owners(s.nodes)[p] == nid;
    }
  }

  // ----- Counting looks ----------------------------------------------------------------------------------------

  /** What is known of the number v of looks in vain for a node, from where the call is. */
  ghost predicate Tried<M>(pc: Pc<M>, nid: PrefixId, v: nat) {
    match pc
    case Start => v == 0
    case Retrieve(_, cur, tries, _) =>
      tries < 8 && if nid == cur then v == tries else v < 8 && (nid.len >= cur.len ==> v == 0)
    case Eval(_, cur, _) => v < 8 && (nid.len > cur.len ==> v == 0)
    case CasPtr(_, cur, _, _) => v < 8 && (nid.len > cur.len ==> v == 0)
    case CasPfx(_, cur, _, _) => v < 8
    case StoreNode(_, id, _) => v < 8 && (nid.len >= id.len ==> v == 0)
    case StoreCas(_, id, _) => v < 8 && (nid.len >= id.len ==> v == 0)
    case Done(result) => if result.NodeCreationMaxRetryError? then v <= 8 else v < 8
    case _ => v < 8
  }

  /** Looking for the next node, or storing it, the call has not looked for any node of that length. */
  ghost predicate GoesDeeper<M>(pc: Pc<M>, pc': Pc<M>) {
    && (pc'.Retrieve? ==> pc'.tries == 0)
    && match pc
       case Eval(_, cur, _) =>
         (pc'.Retrieve? ==> pc'.cur.len > cur.len) && (pc'.CasPtr? ==> pc'.cur == cur)
         && (pc'.CasPtr? || pc'.CasPfx? || pc'.Retrieve? || pc' == Lookup(0))
       case CasPtr(_, cur, _, _) =>
         (pc'.StoreNode? && pc'.id.len > cur.len) || (pc'.CasPtr? && pc'.cur == cur)
       case CasPfx(_, _, _, _) => pc'.CasPfx? || pc' == Lookup(0)
       case StoreNode(_, id, _) =>
         ((pc'.StoreNode? || pc'.StoreCas?) && pc'.id == id) || (pc'.Retrieve? && pc'.cur == id)
       case StoreCas(_, id, _) => (pc'.StoreNode? && pc'.id == id) || (pc'.Retrieve? && pc'.cur == id)
       case _ => true
  }

  lemma EvalDeeper<M>(c: Config<M>, s: State<M>, t: nat)
    requires Inv(c, s) && Shaped(c, s, t) && s.calls[t].pc.Eval?
    ensures GoesDeeper(s.calls[t].pc, Step(c, s, t).calls[t].pc)
  {
    hide Inv, BitsOk, BitAnd, IntoStrideSize, BitPos, Zero, TruncateToLen, GoodTable, HasNode, BitsAt, Canonical;
    CallAt(c, s, t);
    LevelWithin(c, s.calls[t].pc.level);
  }

  lemma CasDeeper<M>(c: Config<M>, s: State<M>, t: nat)
    requires Inv(c, s) && Shaped(c, s, t) && (s.calls[t].pc.CasPtr? || s.calls[t].pc.CasPfx?)
    ensures GoesDeeper(s.calls[t].pc, Step(c, s, t).calls[t].pc)
  {
    hide Inv, BitsOk, WithPtrBit, BitOr, BitPos, TruncateToLen, GoodTable, BitsAt, Canonical, Fits, IsNodeAt, IsLast;
    CallAt(c, s, t);
    LevelWithin(c, s.calls[t].pc.level);
  }

  lemma StoreDeeper<M>(c: Config<M>, s: State<M>, t: nat)
    requires Inv(c, s) && Shaped(c, s, t) && (s.calls[t].pc.StoreNode? || s.calls[t].pc.StoreCas?)
    ensures GoesDeeper(s.calls[t].pc, Step(c, s, t).calls[t].pc)
  {
    hide Inv, MemoryOk, Linked, SlotsOk, SlotAt, TruncateToLen, GoodRow, PathOf, HasBucket, TakenBefore, LevelOk,
         EmptyBits, NewStored, BitsForLen;
    CallAt(c, s, t);
    InvMemory(c, s);
    NodeSlots(c, s);
    WayDown(c.bits, c.nodeTable, s.nodes, s.calls[t].pc.id, s.calls[t].pc.depth);
  }

  /** A call does not come back to the tree, and past it does not give up looking for a node. */
  lemma UpsertStays<M>(c: Config<M>, s: State<M>, t: nat)
    requires Shaped(c, s, t) && !BeforeUpsert(s.calls[t].pc)
    ensures OnlyMoves(s, Step(c, s, t), t) && !BeforeUpsert(Step(c, s, t).calls[t].pc)
    ensures Step(c, s, t).calls[t].pc == Done(NodeCreationMaxRetryError) <==>
      s.calls[t].pc == Done(NodeCreationMaxRetryError)
  {
    hide ConfigOk, GoodId, SlotAt, PathOf, HasBucket, NewStored, BitsForLen;
  }

  lemma TriedDeeper<M>(pc: Pc<M>, pc': Pc<M>, nid: PrefixId, v: nat)
    requires Tried(pc, nid, v) && GoesDeeper(pc, pc')
    requires pc.Eval? || pc.CasPtr? || pc.CasPfx? || pc.StoreNode? || pc.StoreCas?
    ensures Tried(pc', nid, v)
  {
  }

  /** A step of call t counts as one look in vain for the node, or as none. */
  lemma TriedStep<M>(c: Config<M>, s: State<M>, t: nat, nid: PrefixId, v: nat)
    requires Inv(c, s) && t < |s.calls| && Shaped(c, s, t) && Tried(s.calls[t].pc, nid, v)
    ensures Tried(Step(c, s, t).calls[t].pc, nid, v + if LooksInVain(c, s, t, nid) then 1 else 0)
  {
    hide Inv, Shaped, Step, ConfigOk, NodeStored, NodeSlotOk, GoesDeeper;
    match s.calls[t].pc
    case Start => StartGoes(c, s, t);
    case Retrieve(level, cur, tries, depth) => LookGoes(c, s, t, level, cur, tries, depth);
    case Eval(_, _, _) =>
      EvalDeeper(c, s, t);
      TriedDeeper(s.calls[t].pc, Step(c, s, t).calls[t].pc, nid, v);
    case CasPtr(_, _, _, _) =>
      CasDeeper(c, s, t);
      TriedDeeper(s.calls[t].pc, Step(c, s, t).calls[t].pc, nid, v);
    case CasPfx(_, _, _, _) =>
      CasDeeper(c, s, t);
      TriedDeeper(s.calls[t].pc, Step(c, s, t).calls[t].pc, nid, v);
    case StoreNode(_, _, _) =>
      StoreDeeper(c, s, t);
      TriedDeeper(s.calls[t].pc, Step(c, s, t).calls[t].pc, nid, v);
    case StoreCas(_, _, _) =>
      StoreDeeper(c, s, t);
      TriedDeeper(s.calls[t].pc, Step(c, s, t).calls[t].pc, nid, v);
    case _ => UpsertStays(c, s, t);
  }

  lemma StartGoes<M>(c: Config<M>, s: State<M>, t: nat)
    requires Shaped(c, s, t) && s.calls[t].pc.Start?
    ensures Step(c, s, t).calls[t].pc == Retrieve(0, PrefixId(0, 0), 0, 0)
  {
    hide ConfigOk, GoodId;
  }

  lemma OthersStand<M>(c: Config<M>, s: State<M>, u: nat, t: nat)
    requires u < |s.calls| && Shaped(c, s, u) && t < |s.calls| && t != u
    ensures t < |Step(c, s, u).calls| && Step(c, s, u).calls[t] == s.calls[t]
  {
    hide Step, Shaped;
    if BeforeUpsert(s.calls[u].pc) { NodeStepsStay(c, s, u); } else { UpsertStays(c, s, u); }
  }

  lemma {:induction false} TriedRun<M>(c: Config<M>, s: State<M>, schedule: seq<nat>, t: nat, nid: PrefixId, v: nat)
    requires Inv(c, s) && IsSchedule(s, schedule) && t < |s.calls| && Tried(s.calls[t].pc, nid, v)
    ensures CanRun(c, s, schedule) && t < |After(c, s, schedule).calls|
    ensures Tried(After(c, s, schedule).calls[t].pc, nid, v + VainLooks(c, s, schedule, t, nid))
    decreases |schedule|
  {
    hide Inv, Tried, LooksInVain, Shaped, Step, Grows;
    if schedule != [] {
      var u := schedule[0];
      StepKeeps(c, s, u);
      var v' := v + if u == t && LooksInVain(c, s, t, nid) then 1 else 0;
      if u == t { TriedStep(c, s, t, nid, v); } else { OthersStand(c, s, u, t); }
      TriedRun(c, Step(c, s, u), schedule[1..], t, nid, v');
    }
  }

  lemma StartsUntried<M>(c: Config<M>, s: State<M>, t: nat, nid: PrefixId)
    requires Initial(c, s) && t < |s.calls|
    ensures s.calls[t].pc == Start && Tried(s.calls[t].pc, nid, 0)
  {
  }

  // ----- Giving up ----------------------------------------------------------------------------------------------

  /** How often the call has looked for the node since it last went down to it. */
  function TriesNow<M>(pc: Pc<M>, nid: PrefixId): nat {
    if pc.Retrieve? && pc.cur == nid then pc.tries else 0
  }

  lemma TriesStep<M>(c: Config<M>, s: State<M>, t: nat, nid: PrefixId)
    requires Inv(c, s) && t < |s.calls| && Shaped(c, s, t)
    ensures TriesNow(Step(c, s, t).calls[t].pc, nid) <=
      TriesNow(s.calls[t].pc, nid) + if LooksInVain(c, s, t, nid) then 1 else 0
    ensures Step(c, s, t).calls[t].pc == Done(NodeCreationMaxRetryError) ==>
      s.calls[t].pc.Retrieve? || s.calls[t].pc == Done(NodeCreationMaxRetryError)
  {
    hide Inv, Shaped, Step, ConfigOk, NodeStored, NodeSlotOk;
    match s.calls[t].pc
    case Start => StartGoes(c, s, t);
    case Retrieve(level, cur, tries, depth) => LookGoes(c, s, t, level, cur, tries, depth);
    case Eval(_, _, _) => EvalDeeper(c, s, t);
    case CasPtr(_, _, _, _) => CasDeeper(c, s, t);
    case CasPfx(_, _, _, _) => CasDeeper(c, s, t);
    case StoreNode(_, _, _) => StoreDeeper(c, s, t);
    case StoreCas(_, _, _) => StoreDeeper(c, s, t);
    case _ => UpsertStays(c, s, t);
  }

  /** A call gives up at its eighth look in vain. */
  lemma GivesUpNow<M>(c: Config<M>, s: State<M>, t: nat)
    requires Inv(c, s) && t < |s.calls| && Shaped(c, s, t) && s.calls[t].pc != Done(NodeCreationMaxRetryError)
    requires Step(c, s, t).calls[t].pc == Done(NodeCreationMaxRetryError)
    ensures s.calls[t].pc.Retrieve? && LooksInVain(c, s, t, s.calls[t].pc.cur)
    ensures TriesNow(s.calls[t].pc, s.calls[t].pc.cur) == s.calls[t].pc.tries >= 7
  {
    hide Inv, Shaped, Step, LooksInVain;
    TriesStep(c, s, t, PrefixId(0, 0));
    var pc := s.calls[t].pc;
    LookGoes(c, s, t, pc.level, pc.cur, pc.tries, pc.depth);
  }

  /** A call that gives up has looked eight times for one node. */
  lemma {:induction false} SomeVain<M>(c: Config<M>, s: State<M>, schedule: seq<nat>, t: nat) returns (nid: PrefixId)
    requires Inv(c, s) && IsSchedule(s, schedule) && t < |s.calls| && CanRun(c, s, schedule)
    requires t < |After(c, s, schedule).calls| && s.calls[t].pc != Done(NodeCreationMaxRetryError)
    requires After(c, s, schedule).calls[t].pc == Done(NodeCreationMaxRetryError)
    ensures TriesNow(s.calls[t].pc, nid) + VainLooks(c, s, schedule, t, nid) >= 8
    decreases |schedule|
  {
    hide Inv, LooksInVain, Shaped, Step, Grows, TriesNow;
    if schedule == [] {
      assert false;
    } else {
      var u := schedule[0];
      StepKeeps(c, s, u);
      var m := Step(c, s, u);
      if u != t {
        OthersStand(c, s, u, t);
        nid := SomeVain(c, m, schedule[1..], t);
      } else if m.calls[t].pc == Done(NodeCreationMaxRetryError) {
        GivesUpNow(c, s, t);
        nid := s.calls[t].pc.cur;
      } else {
        nid := SomeVain(c, m, schedule[1..], t);
        TriesStep(c, s, t, nid);
      }
    }
  }

  /**
   * In every interleaving a call returns NodeCreationMaxRetryError if and only if it has looked for one node eight
   * times in vain: eight of its steps looked at an empty slot, for one and the same node that was not stored. No call
   * looks for a node in vain more often.
   */
  lemma GivesUpIff<M>(c: Config<M>, s: State<M>, schedule: seq<nat>, t: nat)
    requires Initial(c, s) && IsSchedule(s, schedule) && t < |s.calls|
    ensures CanRun(c, s, schedule) && t < |After(c, s, schedule).calls|
    ensures After(c, s, schedule).calls[t].pc == Done(NodeCreationMaxRetryError) <==>
      exists nid :: VainLooks(c, s, schedule, t, nid) == 8
    ensures forall nid :: VainLooks(c, s, schedule, t, nid) <= 8
  {
    hide Initial, Inv, LooksInVain, Shaped, Step, Grows, VainLooks, ConfigOk;
    InitialIsOk(c, s);
    RunKeeps(c, s, schedule);
    forall nid
      ensures Tried(After(c, s, schedule).calls[t].pc, nid, VainLooks(c, s, schedule, t, nid))
    {
      StartsUntried(c, s, t, nid);
      TriedRun(c, s, schedule, t, nid, 0);
    }
    if After(c, s, schedule).calls[t].pc == Done(NodeCreationMaxRetryError) {
      StartsUntried(c, s, t, PrefixId(0, 0));
      var nid := SomeVain(c, s, schedule, t);
    }
  }
}
