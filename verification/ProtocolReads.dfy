/** A lookup that runs among the inserts: when it finds what has been inserted, and what it tells. */
module ProtocolReads {
  import opened Af
  import opened Records
  import opened Chain
  import opened PrefixStores
  import opened Protocol
  import opened ProtocolInv
  import opened ProtocolSteps
  import opened ProtocolRuns
  import opened ProtocolHome
  import opened ProtocolRaces

  /** Where a lookup is: it loads the slot of a level, then the record there, and last the record it reports. */
  datatype Look<M> =
    | Load(depth: nat)
    | Compare(depth: nat)
    | Found(slot: Slot)
    | Returned(meta: M)
    | Missed

  /** A lookup of a prefix; it writes nothing. */
  datatype Reader<M> = Reader(id: PrefixId, at: Look<M>)

  ghost predicate ReaderShaped<M>(c: Config<M>, s: State<M>, r: Reader<M>) {
    && ConfigOk(c) && GoodId(c.bits, r.id)
    && match r.at
       case Load(depth) => depth < |c.pfxTable[r.id.len]|
       case Compare(depth) => depth < |c.pfxTable[r.id.len]| && SlotAt(c.bits, c.pfxTable, r.id, depth) in s.pfxs
       case Found(slot) => slot in s.pfxs
       case _ => true
  }

  /** The next step of a lookup. It goes by the prefix that the record names, not by the slot's own. */
  function ReadStep<M>(c: Config<M>, s: State<M>, r: Reader<M>): Reader<M>
    requires ReaderShaped(c, s, r)
  {
    match r.at
    case Load(depth) =>
      if !HasBucket(s.pfxs, Bucket(r.id.len, PathOf(c.bits, c.pfxTable, r.id, depth))) then r.(at := Missed)
      else if SlotAt(c.bits, c.pfxTable, r.id, depth) !in s.pfxs then r.(at := Missed)
      else r.(at := Compare(depth))
    case Compare(depth) =>
      var slot := SlotAt(c.bits, c.pfxTable, r.id, depth);
      if s.pfxs[slot].meta.id == r.id then r.(at := Found(slot))
      else if depth + 1 < |c.pfxTable[r.id.len]| then r.(at := Load(depth + 1))
      else r.(at := Missed)
    case Found(slot) => r.(at := Returned(s.pfxs[slot].meta.meta))
    case _ => r
  }

  /** A step of an insert call, or one of the lookup. */
  datatype Event = Act(call: nat) | Read

  ghost predicate IsRun<M>(s: State<M>, events: seq<Event>) {
    forall i :: 0 <= i < |events| && events[i].Act? ==> events[i].call < |s.calls|
  }

  ghost predicate CanWatch<M>(c: Config<M>, s: State<M>, r: Reader<M>, events: seq<Event>)
    decreases |events|
  {
    events != [] ==>
      match events[0]
      case Act(t) => Shaped(c, s, t) && CanWatch(c, Step(c, s, t), r, events[1..])
      case Read => ReaderShaped(c, s, r) && CanWatch(c, s, ReadStep(c, s, r), events[1..])
  }

  /** The lookup after the events. */
  ghost function Watch<M>(c: Config<M>, s: State<M>, r: Reader<M>, events: seq<Event>): Reader<M>
    requires CanWatch(c, s, r, events)
    decreases |events|
  {
    if events == [] then r
    else
      match events[0]
      case Act(t) => Watch(c, Step(c, s, t), r, events[1..])
      case Read => Watch(c, s, ReadStep(c, s, r), events[1..])
  }

  /** The steps of the insert calls among the events. */
  ghost function Acts(events: seq<Event>): seq<nat> {
    if events == [] then []
    else if events[0].Act? then [events[0].call] + Acts(events[1..])
    else Acts(events[1..])
  }

  /** How many of the events are steps of the lookup. */
  ghost function Reads(events: seq<Event>): nat {
    if events == [] then 0 else (if events[0].Read? then 1 else 0) + Reads(events[1..])
  }

  // ----- What a lookup knows ---------------------------------------------------------------------------------

  /** On the way down the lookup has met slots of other prefixes only; what it has found is its own. */
  ghost predicate ReadingOk<M>(c: Config<M>, s: State<M>, r: Reader<M>) {
    && ReaderShaped(c, s, r)
    && match r.at
       case Load(depth) => TakenBefore(c.bits, c.pfxTable, Owners(s.pfxs), r.id, depth)
       case Compare(depth) => TakenBefore(c.bits, c.pfxTable, Owners(s.pfxs), r.id, depth)
       case Found(slot) => s.pfxs[slot].prefix == r.id
       case _ => true
  }

  lemma ReadingGrows<M>(c: Config<M>, s: State<M>, s': State<M>, r: Reader<M>)
    requires ReadingOk(c, s, r) && StoreGrows(s, s')
    ensures ReadingOk(c, s', r)
  {
    hide GoodRow, TruncateToLen, SlotAt;
  }

  lemma HoldsGrows<M>(s: State<M>, s': State<M>, id: PrefixId)
    requires StoreGrows(s, s') && Holds(s.pfxs, id)
    ensures Holds(s'.pfxs, id)
  {
    var q :| q in s.pfxs && s.pfxs[q].prefix == id;
    assert q in s'.pfxs && s'.pfxs[q].prefix == id;
  }

  lemma StepGrows<M>(c: Config<M>, s: State<M>, s': State<M>)
    requires ConfigOk(c) && Grows(c, s, s')
    ensures StoreGrows(s, s')
  {
    hide BitsGrow, ConfigOk;
  }

  /** A stored prefix is stored as far as the map says. */
  lemma HeldIsStored<M>(slots: Slots<Record<M>>, id: PrefixId)
    requires Distinct(slots)
    ensures Holds(slots, id) <==> id in Contents(slots)
    ensures Holds(slots, id) <==> id in Owners(slots).Values
  {
    if q :| q in slots && slots[q].prefix == id {
      assert Owners(slots)[q] == id;
    }
  }

  /**
   * A step of a lookup keeps what it knows. It reports what the store stands for at that moment: it ends
   * without a result only if the prefix is not stored, and with the metadata that is stored otherwise.
   */
  lemma ReadTells<M>(c: Config<M>, s: State<M>, r: Reader<M>)
    requires MemoryOk(c, s) && RecordsOk(s) && ReadingOk(c, s, r) && !r.at.Missed? && !r.at.Returned?
    ensures ReadingOk(c, s, ReadStep(c, s, r))
    ensures Distinct(s.pfxs)
    ensures var r' := ReadStep(c, s, r);
      && (r'.at.Missed? ==> r.id !in Contents(s.pfxs))
      && (r'.at.Returned? ==> r.id in Contents(s.pfxs) && Contents(s.pfxs)[r.id] == r'.at.meta)
  {
    hide MemoryOk, Contents, SlotAt, GoodRow, TruncateToLen, PathOf, HasBucket, TakenBefore, Distinct, SlotsOk;
    TableOf(c, s);
    NodeSlots(c, s);
    HeldIsStored(s.pfxs, r.id);
    match r.at
    case Load(depth) =>
      WayDown(c.bits, c.pfxTable, s.pfxs, r.id, depth);
      NotHere(c, s, r.id, depth);
    case Compare(depth) =>
      WayDown(c.bits, c.pfxTable, s.pfxs, r.id, depth);
    case Found(slot) =>
      ContentsAt(s.pfxs, slot);
  }

  lemma NotHere<M>(c: Config<M>, s: State<M>, id: PrefixId, depth: nat)
    requires SlotsOk(c.bits, c.pfxTable, s.pfxs) && GoodId(c.bits, id) && depth < |c.pfxTable[id.len]|
    requires TakenBefore(c.bits, c.pfxTable, Owners(s.pfxs), id, depth)
    ensures SlotAt(c.bits, c.pfxTable, id, depth) !in s.pfxs ==> id !in Owners(s.pfxs).Values
  {
    hide SlotAt, GoodRow, TruncateToLen, TakenBefore, Distinct, BucketsOk;
    if SlotAt(c.bits, c.pfxTable, id, depth) !in s.pfxs {
      FreeMeansAbsent(c.bits, c.pfxTable, Owners(s.pfxs), id, depth);
    }
  }

  lemma ContentsAt<M>(slots: Slots<Record<M>>, q: Slot)
    requires Distinct(slots) && q in slots
    ensures slots[q].prefix in Contents(slots) && Contents(slots)[slots[q].prefix] == slots[q].meta.meta
  {
  }

  // ----- A lookup among inserts ----------------------------------------------------------------------------

  /** How many steps the lookup still needs. */
  function ReadsLeft<M>(c: Config<M>, r: Reader<M>): nat {
    var rows := if r.id.len < |c.pfxTable| then |c.pfxTable[r.id.len]| else 0;
    match r.at
    case Load(depth) => if depth < rows then 2 * (rows - depth) + 1 else 0
    case Compare(depth) => if depth < rows then 2 * (rows - depth) else 0
    case Found(_) => 1
    case _ => 0
  }

  lemma ReadCloser<M>(c: Config<M>, s: State<M>, r: Reader<M>)
    requires ReaderShaped(c, s, r)
    ensures ReadStep(c, s, r).id == r.id
    ensures ReadsLeft(c, ReadStep(c, s, r)) <= if ReadsLeft(c, r) > 0 then ReadsLeft(c, r) - 1 else 0
    ensures ReadsLeft(c, r) == 0 <==> r.at.Missed? || r.at.Returned?
  {
    hide SlotAt, GoodRow, TruncateToLen, PathOf, HasBucket;
  }

  /** The store is in order, and the lookup is of a stored prefix and has not missed it. */
  ghost predicate OnTrack<M>(c: Config<M>, s: State<M>, r: Reader<M>) {
    && Inv(c, s) && ConfigOk(c) && Home(c, s)
    && ReadingOk(c, s, r) && Holds(s.pfxs, r.id) && !r.at.Missed?
  }

  lemma ActKeepsTrack<M>(c: Config<M>, s: State<M>, r: Reader<M>, t: nat)
    requires OnTrack(c, s, r) && t < |s.calls| && Apart(c, s)
    ensures Shaped(c, s, t) && OnTrack(c, Step(c, s, t), r)
  {
    hide Inv, Home, Shaped, Step, ReadingOk, Holds, Grows, Apart, ConfigOk;
    StepKeeps(c, s, t);
    var m := Step(c, s, t);
    InvMemory(c, m);
    ApartHas(c, s);
    HomeStep(c, s, t);
    StepGrows(c, s, m);
    ReadingGrows(c, s, m, r);
    HoldsGrows(s, m, r.id);
  }

  lemma ApartHas<M>(c: Config<M>, s: State<M>)
    requires Apart(c, s)
    ensures ConfigOk(c)
  {
  }

  lemma ReadKeepsTrack<M>(c: Config<M>, s: State<M>, r: Reader<M>)
    requires OnTrack(c, s, r)
    ensures ReaderShaped(c, s, r) && OnTrack(c, s, ReadStep(c, s, r))
  {
    hide Inv, ConfigOk, Home, ReadingOk, Holds, ReaderShaped, ReadStep, ReadsLeft;
    ReadOn(c, s, r);
    ReadCloser(c, s, r);
  }

  /** A lookup of a stored prefix goes on well whatever the calls do, as long as clashing calls do not overlap. */
  lemma {:induction false} WatchKeeps<M>(c: Config<M>, s: State<M>, r: Reader<M>, events: seq<Event>)
    requires OnTrack(c, s, r) && IsRun(s, events) && AlwaysApart(c, s, Acts(events))
    ensures CanWatch(c, s, r, events)
    ensures var r' := Watch(c, s, r, events);
      r'.id == r.id && !r'.at.Missed? && (Reads(events) >= ReadsLeft(c, r) ==> r'.at.Returned?)
    decreases |events|
  {
    hide OnTrack, Shaped, Step, ReaderShaped, ReadStep, ReadsLeft, Apart;
    NotMissed(c, s, r);
    ReadCloser(c, s, r);
    if events != [] {
      match events[0]
      case Act(t) =>
        assert Acts(events)[0] == t && Acts(events)[1..] == Acts(events[1..]);
        ActKeepsTrack(c, s, r, t);
        WatchKeeps(c, Step(c, s, t), r, events[1..]);
      case Read =>
        ReadKeepsTrack(c, s, r);
        WatchKeeps(c, s, ReadStep(c, s, r), events[1..]);
    }
  }

  lemma NotMissed<M>(c: Config<M>, s: State<M>, r: Reader<M>)
    requires OnTrack(c, s, r)
    ensures ReaderShaped(c, s, r) && !r.at.Missed?
  {
    hide Inv, ConfigOk, Home, ReadingOk, Holds, ReaderShaped;
    ReaderOf(c, s, r);
  }

  lemma ReaderOf<M>(c: Config<M>, s: State<M>, r: Reader<M>)
    requires ReadingOk(c, s, r)
    ensures ReaderShaped(c, s, r)
  {
  }

  /** A lookup of a stored prefix does not miss it. */
  lemma ReadOn<M>(c: Config<M>, s: State<M>, r: Reader<M>)
    requires Inv(c, s) && ConfigOk(c) && Home(c, s) && ReadingOk(c, s, r) && Holds(s.pfxs, r.id) && !r.at.Missed?
    ensures ReaderShaped(c, s, r)
    ensures ReadingOk(c, s, ReadStep(c, s, r)) && !ReadStep(c, s, r).at.Missed?
  {
    hide Inv, ConfigOk, ReadingOk, CallsHome, OwnTargets, Holds, RecordsOk, Contents, Distinct;
    ReaderOf(c, s, r);
    InvMemory(c, s);
    TableOf(c, s);
    HeldIsStored(s.pfxs, r.id);
    if !r.at.Returned? { ReadTells(c, s, r); }
  }

  /** A prefix whose insert has returned Ok is stored. */
  lemma OkIsStored<M>(c: Config<M>, s: State<M>, t: nat)
    requires Inv(c, s) && ConfigOk(c) && Home(c, s) && t < |s.calls| && s.calls[t].pc == Done(Inserted)
    ensures GoodId(c.bits, s.calls[t].rec.id) && Holds(s.pfxs, s.calls[t].rec.id)
  {
    hide MemoryOk, ConfigOk, CallsOk, Prefixes, Run, RecMerge, Distinct, CallsHome, RecordsOk, GoodId;
    CallAt(c, s, t);
    CallHasId(c, s, t);
    InvMemory(c, s);
    TableOf(c, s);
    assert Changed(s.log, t);
    var i :| 0 <= i < |s.log| && s.log[i].call == t;
    var changes := Applied(s.calls, s.log);
    assert changes[i].id == s.calls[t].rec.id;
    RunHas(changes, RecMerge(c.merge), s.calls[t].rec.id);
    var q := SlotOf(s.pfxs, s.calls[t].rec.id);
  }

  lemma CallHasId<M>(c: Config<M>, s: State<M>, t: nat)
    requires ConfigOk(c) && t < |s.calls| && CallOk(c, s, s.calls[t].rec.id, s.calls[t].pc)
    ensures GoodId(c.bits, s.calls[t].rec.id)
  {
  }

  lemma Begins<M>(c: Config<M>, s: State<M>, id: PrefixId)
    requires ConfigOk(c) && GoodId(c.bits, id)
    ensures ReadingOk(c, s, Reader(id, Load(0)))
    ensures ReadsLeft<M>(c, Reader(id, Load(0))) == 2 * |c.pfxTable[id.len]| + 1
  {
    hide TruncateToLen;
  }

  /**
   * A lookup that begins after an insert of its prefix has returned Ok finds it, whatever other calls do before,
   * after and in between, as long as clashing calls do not overlap; two steps a level and one more are enough.
   */
  lemma InsertedIsFound<M>(c: Config<M>, s: State<M>, before: seq<nat>, t: nat, events: seq<Event>)
    requires Initial(c, s) && IsSchedule(s, before) && IsRun(s, events) && t < |s.calls|
    requires AlwaysApart(c, s, before) && CanRun(c, s, before)
    requires t < |After(c, s, before).calls| && After(c, s, before).calls[t].pc == Done(Inserted)
    requires AlwaysApart(c, After(c, s, before), Acts(events))
    ensures ConfigOk(c) && GoodId(c.bits, s.calls[t].rec.id)
    ensures var m, r := After(c, s, before), Reader(s.calls[t].rec.id, Load(0));
      && CanWatch(c, m, r, events)
      && !Watch(c, m, r, events).at.Missed?
      && (Reads(events) > 2 * |c.pfxTable[r.id.len]| ==> Watch(c, m, r, events).at.Returned?)
  {
    hide Initial, Inv, ConfigOk, Home, AlwaysApart, IsSchedule, ReadingOk, Holds, ReadsLeft, GoodId, CanWatch, Grows;
    InitialIsOk(c, s);
    InitialIsHome(c, s);
    RunKeeps(c, s, before);
    HomeRuns(c, s, before);
    var m := After(c, s, before);
    OkIsStored(c, m, t);
    Begins(c, m, s.calls[t].rec.id);
    assert OnTrack(c, m, Reader(s.calls[t].rec.id, Load(0)));
    hide OnTrack;
    WatchKeeps(c, m, Reader(s.calls[t].rec.id, Load(0)), events);
  }

  // ----- What a lookup tells ------------------------------------------------------------------------------------

  /** What the lookup has come to is true of the store. */
  ghost predicate Tells<M>(s: State<M>, r: Reader<M>) {
    && Distinct(s.pfxs)
    && (r.at.Missed? ==> r.id !in Contents(s.pfxs))
    && (r.at.Returned? ==> r.id in Contents(s.pfxs) && Contents(s.pfxs)[r.id] == r.at.meta)
  }

  /** At some moment during the events, what the lookup came to in the end was true of the store. */
  ghost predicate ToldSometime<M>(c: Config<M>, s: State<M>, events: seq<Event>, r: Reader<M>)
    decreases |events|
  {
    || Tells(s, r)
    || (events != [] &&
          match events[0]
          case Act(t) => Shaped(c, s, t) && ToldSometime(c, Step(c, s, t), events[1..], r)
          case Read => ToldSometime(c, s, events[1..], r))
  }

  ghost predicate Ended<M>(r: Reader<M>) {
    r.at.Missed? || r.at.Returned?
  }

  /** The store is in order, and a lookup that has ended has told what is true. */
  ghost predicate Truthful<M>(c: Config<M>, s: State<M>, r: Reader<M>) {
    Inv(c, s) && ConfigOk(c) && Home(c, s) && ReadingOk(c, s, r) && (Ended(r) ==> Tells(s, r))
  }

  lemma ActKeepsTruth<M>(c: Config<M>, s: State<M>, r: Reader<M>, t: nat)
    requires Truthful(c, s, r) && !Ended(r) && t < |s.calls| && Apart(c, s)
    ensures Shaped(c, s, t) && Truthful(c, Step(c, s, t), r)
  {
    hide Inv, Home, Shaped, Step, ReadingOk, Tells, Ended, Grows, Apart, ConfigOk;
    StepKeeps(c, s, t);
    var m := Step(c, s, t);
    InvMemory(c, m);
    ApartHas(c, s);
    HomeStep(c, s, t);
    StepGrows(c, s, m);
    ReadingGrows(c, s, m, r);
  }

  lemma ReadKeepsTruth<M>(c: Config<M>, s: State<M>, r: Reader<M>)
    requires Truthful(c, s, r) && !Ended(r)
    ensures ReaderShaped(c, s, r) && Truthful(c, s, ReadStep(c, s, r))
  {
    hide Inv, ConfigOk, ReadingOk, CallsHome, OwnTargets, RecordsOk, Contents, Distinct, ReadStep;
    ReaderOf(c, s, r);
    InvMemory(c, s);
    ReadTells(c, s, r);
    ReadCloser(c, s, r);
  }

  lemma {:induction false} EndedStays<M>(c: Config<M>, s: State<M>, r: Reader<M>, events: seq<Event>)
    requires Inv(c, s) && IsRun(s, events) && ReaderShaped(c, s, r) && Ended(r)
    ensures CanWatch(c, s, r, events) && Watch(c, s, r, events) == r
    decreases |events|
  {
    hide Inv, Shaped, Step, Grows, SlotAt, HasBucket;
    if events != [] {
      match events[0]
      case Act(t) =>
        StepKeeps(c, s, t);
        EndedStays(c, Step(c, s, t), r, events[1..]);
      case Read => EndedStays(c, s, r, events[1..]);
    }
  }

  lemma TruthfulParts<M>(c: Config<M>, s: State<M>, r: Reader<M>)
    requires Truthful(c, s, r)
    ensures Inv(c, s) && ReaderShaped(c, s, r) && (Ended(r) ==> Tells(s, r))
  {
    hide Inv, Home, ReadingOk, Tells, Ended, ConfigOk;
    ReaderOf(c, s, r);
  }

  /** What a lookup comes to was true at some moment while it ran, as long as clashing calls do not overlap. */
  lemma {:induction false} TellsTrue<M>(c: Config<M>, s: State<M>, r: Reader<M>, events: seq<Event>)
    requires Truthful(c, s, r) && IsRun(s, events) && AlwaysApart(c, s, Acts(events))
    ensures CanWatch(c, s, r, events)
    ensures Ended(Watch(c, s, r, events)) ==> ToldSometime(c, s, events, Watch(c, s, r, events))
    decreases |events|
  {
    hide Truthful, Inv, Shaped, Step, ReaderShaped, ReadStep, Apart, Ended, Tells;
    TruthfulParts(c, s, r);
    if Ended(r) {
      EndedStays(c, s, r, events);
    } else if events != [] {
      match events[0]
      case Act(t) =>
        assert Acts(events)[0] == t && Acts(events)[1..] == Acts(events[1..]);
        ActKeepsTruth(c, s, r, t);
        TellsTrue(c, Step(c, s, t), r, events[1..]);
      case Read =>
        ReadKeepsTruth(c, s, r);
        TellsTrue(c, s, ReadStep(c, s, r), events[1..]);
    }
  }

  /** In a run without overlapping clashes, a lookup that ends tells what was true while it ran. */
  lemma LookupTellsTrue<M>(c: Config<M>, s: State<M>, before: seq<nat>, id: PrefixId, events: seq<Event>)
    requires Initial(c, s) && IsSchedule(s, before) && IsRun(s, events) && GoodId(c.bits, id)
    requires AlwaysApart(c, s, before) && CanRun(c, s, before)
    requires AlwaysApart(c, After(c, s, before), Acts(events))
    ensures ConfigOk(c)
    ensures var m, r := After(c, s, before), Reader(id, Load(0));
      && CanWatch(c, m, r, events)
      && (Ended(Watch(c, m, r, events)) ==> ToldSometime(c, m, events, Watch(c, m, r, events)))
  {
    hide Initial, Inv, ConfigOk, Home, AlwaysApart, IsSchedule, ReadingOk, ReadsLeft, GoodId, CanWatch, Grows, Tells;
    InitialIsOk(c, s);
    InitialIsHome(c, s);
    RunKeeps(c, s, before);
    HomeRuns(c, s, before);
    var m := After(c, s, before);
    var r: Reader<M> := Reader(id, Load(0));
    Begins(c, m, id);
    assert Truthful(c, m, r);
    hide Truthful;
    TellsTrue(c, m, r, events);
  }

  // ----- Exactly when ----------------------------------------------------------------------------------------------

  /** A lookup begun after an insert of its prefix has returned Ok misses it. */
  ghost predicate Misses<M>(c: Config<M>, s: State<M>, before: seq<nat>, t: nat, events: seq<Event>) {
    && ConfigOk(c) && IsSchedule(s, before) && IsRun(s, events) && t < |s.calls|
    && CanRun(c, s, before)
    && var m, r := After(c, s, before), Reader(s.calls[t].rec.id, Load(0));
       && t < |m.calls| && m.calls[t].pc == Done(Inserted)
       && CanWatch(c, m, r, events) && Watch(c, m, r, events).at.Missed?
  }

  lemma NoClashLater<M>(c: Config<M>, s: State<M>, m: State<M>)
    requires SameRecs(s, m) && ConfigOk(c) && GoodIds(c, s.calls) && NoClash(c, s.calls)
    ensures GoodIds(c, m.calls) && NoClash(c, m.calls)
  {
    hide ConfigOk, GoodId, Clash;
    assert forall t :: 0 <= t < |s.calls| ==> m.calls[t].rec == s.calls[t].rec;
  }

  lemma NoClashFinds<M>(c: Config<M>, s: State<M>, before: seq<nat>, t: nat, events: seq<Event>)
    requires Initial(c, s) && ConfigOk(c) && GoodIds(c, s.calls) && NoClash(c, s.calls)
    ensures !Misses(c, s, before, t, events)
  {
    hide Initial, Inv, ConfigOk, GoodIds, NoClash, AlwaysApart, Grows, CanWatch, IsSchedule, IsRun, GoodId;
    if Misses(c, s, before, t, events) {
      InitialIsOk(c, s);
      RunKeeps(c, s, before);
      NeverClashing(c, s, before);
      NoClashLater(c, s, After(c, s, before));
      NeverClashing(c, After(c, s, before), Acts(events));
      InsertedIsFound(c, s, before, t, events);
    }
  }

  /** Where a record has been renamed, the lookup of the prefix that was there misses it. */
  lemma RenamedIsMissed<M>(c: Config<M>, e: State<M>, id: PrefixId)
    requires ConfigOk(c) && GoodId(c.bits, id)
    requires e.pfxs.Keys == {RootSlot(c, id)} && e.pfxs[RootSlot(c, id)].meta.id != id
    ensures CanWatch(c, e, Reader(id, Load(0)), [Read, Read, Read])
    ensures Watch(c, e, Reader(id, Load(0)), [Read, Read, Read]).at.Missed?
  {
    hide TruncateToLen, GoodRow, HashId;
    RootLevel(c, id);
    var r: Reader<M> := Reader(id, Load(0));
    var r1 := ReadStep(c, e, r);
    assert r1.at == Compare(0);
    var r2 := ReadStep(c, e, r1);
    assert r2.at == Missed || (r2.at == Load(1) && SlotAt(c.bits, c.pfxTable, id, 1) !in e.pfxs);
    var r3 := ReadStep(c, e, r2);
    assert r3.at == Missed;
    WatchThree(c, e, r);
  }

  lemma WatchThree<M>(c: Config<M>, e: State<M>, r: Reader<M>)
    requires ReaderShaped(c, e, r) && ReaderShaped(c, e, ReadStep(c, e, r))
    requires ReaderShaped(c, e, ReadStep(c, e, ReadStep(c, e, r)))
    ensures CanWatch(c, e, r, [Read, Read, Read])
    ensures Watch(c, e, r, [Read, Read, Read]) == ReadStep(c, e, ReadStep(c, e, ReadStep(c, e, r)))
  {
    hide ReaderShaped, ReadStep;
    var r1 := ReadStep(c, e, r);
    var r2 := ReadStep(c, e, r1);
    assert CanWatch(c, e, ReadStep(c, e, r2), []);
    assert [Read][1..] == [] && [Read, Read][1..] == [Read] && [Read, Read, Read][1..] == [Read, Read];
    assert CanWatch(c, e, r2, [Read]) && CanWatch(c, e, r1, [Read, Read]);
  }

  lemma ClashMisses<M>(c: Config<M>, s: State<M>) returns (before: seq<nat>, u: nat, events: seq<Event>)
    requires Initial(c, s) && ConfigOk(c) && GoodIds(c, s.calls) && !NoClash(c, s.calls)
    ensures Misses(c, s, before, u, events)
  {
    hide Initial, ConfigOk, GoodId, NoClash, Clash, RootSlot, IsSchedule, CanRun, CanWatch;
    var t, e;
    t, u := SomeClash(c, s.calls);
    DifferentIds(c, s.calls[t].rec.id, s.calls[u].rec.id);
    before, e := Misdirects(c, s, t, u);
    RenamedIsMissed(c, e, s.calls[u].rec.id);
    events := [Read, Read, Read];
  }

  /** No lookup misses a prefix whose insert returned Ok before it began, if and only if no two calls clash. */
  lemma FoundIffNoClash<M>(c: Config<M>, s: State<M>)
    requires Initial(c, s)
    ensures ConfigOk(c) && GoodIds(c, s.calls)
    ensures (forall before, t, events :: !Misses(c, s, before, t, events)) <==> NoClash(c, s.calls)
  {
    hide Initial, ConfigOk, GoodIds, NoClash, Misses, Home;
    InitialIsHome(c, s);
    if NoClash(c, s.calls) {
      forall before, t, events
        ensures !Misses(c, s, before, t, events)
      {
        NoClashFinds(c, s, before, t, events);
      }
    } else {
      var before, t, events := ClashMisses(c, s);
    }
  }
}
