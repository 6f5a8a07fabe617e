/**
 * The channel table of mux.go and what a connection does to its channels: numbers, lookup, reuse, and
 * how channels end. A channel is named by the order in which it was created.
 */
module Mux {
  import opened Words

  // ---------------------------------------------------------------- the table

  /** A slot is empty or holds a channel; the number of a slot is its index plus an offset, in 32 bits. */
  type Slots = seq<Option<nat>>

  const MOST := 0xffff_ffff

  function IdOf(i: nat, offset: uint32): uint32 {
    (i + offset) % 0x1_0000_0000
  }

  /** The slot of a number: the difference may wrap around. */
  function SlotOf(id: uint32, offset: uint32): nat {
    (id - offset) % 0x1_0000_0000
  }

  lemma SlotIsInverse(i: nat, id: uint32, offset: uint32)
    requires i < 0x1_0000_0000
    ensures SlotOf(id, offset) == i <==> id == IdOf(i, offset)
  {
  }

  function FirstFree(slots: Slots): (i: nat)
    ensures i <= |slots| && (i < |slots| ==> slots[i] == None)
    ensures forall j :: 0 <= j < i ==> slots[j].Some?
  {
    if slots == [] || slots[0] == None then 0 else 1 + FirstFree(slots[1..])
  }

  function Put(slots: Slots, i: nat, u: nat): Slots
    requires i <= |slots|
  {
    if i < |slots| then slots[i := Some(u)] else slots + [Some(u)]
  }

  function Lookup(slots: Slots, id: uint32, offset: uint32): Option<nat> {
    var i := SlotOf(id, offset);
    if i < |slots| then slots[i] else None
  }

  function Listed(slots: Slots): seq<nat> {
    if slots == [] then [] else (if slots[0].Some? then [slots[0].value] else []) + Listed(slots[1..])
  }

  class ChanList {
    var chans: Slots
    const offset: uint32

    constructor (offset: uint32)
      ensures chans == [] && this.offset == offset
    {
      chans, this.offset := [], offset;
    }

    /** add: the first free slot, or a new one at the end. */
    method Add(ch: nat) returns (id: uint32)
      modifies this
      ensures chans == Put(old(chans), FirstFree(old(chans)), ch) && id == IdOf(FirstFree(old(chans)), offset)
    {
      var i := 0;
      while i < |chans|
        invariant 0 <= i <= |chans| && chans == old(chans) && forall j :: 0 <= j < i ==> chans[j].Some?
      {
        if chans[i] == None {
          chans := chans[i := Some(ch)];
          id := (i + offset) % 0x1_0000_0000;
          return;
        }
        i := i + 1;
      }
      chans := chans + [Some(ch)];
      id := (|chans| - 1 + offset) % 0x1_0000_0000;
    }

    /** getChan; the comparison is in 32 bits, which is exact below 2^32 slots. */
    method GetChan(id: uint32) returns (ch: Option<nat>)
      requires |chans| <= MOST
      ensures ch == Lookup(chans, id, offset)
    {
      var i := (id - offset) % 0x1_0000_0000;
      ch := if i < U32(|chans|) then chans[i] else None;
    }

    method Remove(id: uint32)
      requires |chans| <= MOST
      modifies this
      ensures chans == Removed(old(chans), id, offset)
    {
      var i := (id - offset) % 0x1_0000_0000;
      if i < U32(|chans|) {
        chans := chans[i := None];
      }
    }

    /** dropAll: the listed channels in slot order, and an empty table. */
    method DropAll() returns (r: seq<nat>)
      modifies this
      ensures r == Listed(old(chans)) && chans == []
    {
      r := [];
      var i := 0;
      assert chans[0..] == chans;
      while i < |chans|
        invariant 0 <= i <= |chans| && chans == old(chans) && r + Listed(chans[i..]) == Listed(chans)
      {
        assert chans[i..][1..] == chans[i + 1..];
        if chans[i].Some? {
          r := r + [chans[i].value];
        }
        i := i + 1;
      }
      chans := [];
    }
  }

  function Removed(slots: Slots, id: uint32, offset: uint32): Slots {
    var i := SlotOf(id, offset);
    if i < |slots| then slots[i := None] else slots
  }

  // ---------------------------------------------------------------- the connection

  datatype Message = Confirm | Failure | Data | Close

  /**
   * A channel: its number, who opened it, whether it has been answered, the messages sent on it, how
   * often its Go channels were closed, whether the peer has ended it by CLOSE or OPEN_FAILURE, and
   * whether the packet loop had already ended when it was opened.
   */
  datatype Chan = Chan(localId: uint32, inbound: bool, decided: bool, sentClose: bool, sent: seq<Message>,
                       closes: nat, ended: bool, late: bool)

  /** The table, all channels ever opened, whether the packet loop runs, and the table as it left it. */
  datatype State = State(slots: Slots, channels: seq<Chan>, running: bool, dropped: Slots)

  datatype Packet = CloseMsg | FailureMsg | ConfirmMsg(sizeOk: bool) | Harmless | Malformed

  datatype Event =
    | Open(inbound: bool)
    | Receive(id: uint32, packet: Packet)
    | Accept(u: nat)
    | Reject(u: nat)
    | Send(u: nat, message: Message)
    | Fail

  /** writePacket of channel.go: nothing goes out behind a CLOSE. */
  function Write(c: Chan, m: Message): Chan {
    if c.sentClose then c else c.(sent := c.sent + [m], sentClose := m == Close)
  }

  /** close of channel.go. */
  function Shut(c: Chan): Chan {
    c.(closes := c.closes + 1, sentClose := true)
  }

  /** The packet loop ends: every channel that is still listed is closed. */
  function Stop(s: State): State {
    State([], seq(|s.channels|, u requires 0 <= u < |s.channels| =>
                   if Some(u) in s.slots then Shut(s.channels[u]) else s.channels[u]), false, s.slots)
  }

  function Create(s: State, inbound: bool, offset: uint32): State {
    var i := FirstFree(s.slots);
    s.(slots := Put(s.slots, i, |s.channels|),
       channels := s.channels + [Chan(IdOf(i, offset), inbound, false, false, [], 0, false, !s.running)])
  }

  /** Channel u becomes d and leaves the table. */
  function Ended(s: State, u: nat, id: uint32, d: Chan, offset: uint32): State
    requires u < |s.channels|
  {
    s.(slots := Removed(s.slots, id, offset), channels := s.channels[u := d])
  }

  /** handlePacket for channel u, which was found under the number id. */
  function Handle(s: State, u: nat, id: uint32, p: Packet, offset: uint32): State
    requires u < |s.channels|
  {
    var c := s.channels[u];
    match p
    case CloseMsg => Ended(s, u, c.localId, Shut(Write(c, Close)).(ended := true), offset)
    case FailureMsg =>
      if c.inbound || c.decided then Stop(s)
      else Ended(s, u, id, c.(decided := true, ended := true), offset)
    case ConfirmMsg(sizeOk) =>
      if c.inbound || c.decided then Stop(s)
      else
        var t := s.(channels := s.channels[u := c.(decided := true)]);
        if sizeOk then t else Stop(t)
    case Harmless => s
    case Malformed => Stop(s)
  }

  /**
   * One event; those that cannot happen in a state leave it as it is. The peer opens channels through the
   * packet loop, but our own side can still call OpenChannel after the loop has ended.
   */
  function Next(s: State, e: Event, offset: uint32): State {
    match e
    case Open(inbound) => if (s.running || !inbound) && |s.slots| < MOST then Create(s, inbound, offset) else s
    case Receive(id, p) =>
      if !s.running then s
      else
        var u := Lookup(s.slots, id, offset);
        if u == None || u.value >= |s.channels| then Stop(s) else Handle(s, u.value, id, p, offset)
    case Accept(u) =>
      if u < |s.channels| && s.channels[u].inbound && !s.channels[u].decided then
        s.(channels := s.channels[u := Write(s.channels[u].(decided := true), Confirm)])
      else s
    case Reject(u) =>
      if u < |s.channels| && s.channels[u].inbound && !s.channels[u].decided then
        s.(channels := s.channels[u := Write(s.channels[u].(decided := true), Failure)])
      else s
    case Send(u, m) =>
      if u < |s.channels| && (m == Data || m == Close) then s.(channels := s.channels[u := Write(s.channels[u], m)])
      else s
    case Fail => if s.running then Stop(s) else s
  }

  function Run(events: seq<Event>, offset: uint32): State {
    if events == [] then State([], [], true, []) else Next(Run(events[..|events| - 1], offset), events[|events| - 1],
        offset)
  }

  // ---------------------------------------------------------------- what every step keeps

  /** A listed channel carries the number of its slot, and has neither ended nor been closed. */
  predicate SlotsOk(s: State, offset: uint32) {
    |s.slots| <= MOST && forall i :: 0 <= i < |s.slots| && s.slots[i].Some? ==>
        InSlot(s.channels, s.slots[i].value, i, offset)
  }

  predicate InSlot(channels: seq<Chan>, u: nat, i: nat, offset: uint32) {
    u < |channels| && channels[u].localId == IdOf(i, offset) && !channels[u].ended && channels[u].closes == 0
  }

  /** While the loop runs, a channel is listed until the peer ends it. */
  predicate ListedUntilEnded(s: State, offset: uint32) {
    s.running ==> forall u :: 0 <= u < |s.channels| && !s.channels[u].ended ==>
      var i := SlotOf(s.channels[u].localId, offset); i < |s.slots| && s.slots[i] == Some(u)
  }

  /** A single CLOSE, with nothing behind it, and Go channels closed at most once. */
  predicate ChanOk(c: Chan) {
    c.closes <= 1 && (forall i :: 0 <= i < |c.sent| && c.sent[i] == Close ==> i == |c.sent| - 1 && c.sentClose)
  }

  predicate ChansOk(channels: seq<Chan>) {
    forall u :: 0 <= u < |channels| ==> ChanOk(channels[u])
  }

  /** A number is given out again only when the channel that had it has ended, or after the loop. */
  predicate Reuse(channels: seq<Chan>) {
    forall u, v :: 0 <= u < v < |channels| && channels[u].localId == channels[v].localId ==>
      channels[u].ended || channels[v].late
  }

  /** After the loop the table only grows, and what it held before is known. */
  predicate AfterLoop(s: State, offset: uint32) {
    !s.running ==>
      && (forall i :: 0 <= i < |s.slots| ==> s.slots[i].Some?)
      && (forall i :: 0 <= i < |s.dropped| && s.dropped[i].Some? ==> WasIn(s.channels, s.dropped[i].value, i, offset))
      && (forall u :: 0 <= u < |s.channels| && !s.channels[u].ended ==> Placed(s, u, offset))
  }

  /** Channel u left the table in slot i without having ended. */
  predicate WasIn(channels: seq<Chan>, u: nat, i: nat, offset: uint32) {
    u < |channels| && channels[u].localId == IdOf(i, offset) && !channels[u].ended
  }

  /** A channel that has not ended is where its number says, in the table of its time. */
  predicate Placed(s: State, u: nat, offset: uint32)
    requires u < |s.channels|
  {
    var i, table := SlotOf(s.channels[u].localId, offset), if s.channels[u].late then s.slots else s.dropped;
    i < |table| && table[i] == Some(u)
  }

  predicate Inv(s: State, offset: uint32) {
    && SlotsOk(s, offset) && ListedUntilEnded(s, offset) && ChansOk(s.channels) && Reuse(s.channels)
    && AfterLoop(s, offset) && (s.running ==> forall u :: 0 <= u < |s.channels| ==> !s.channels[u].late)
  }

  lemma StopKeeps(s: State, offset: uint32)
    requires Inv(s, offset) && s.running
    ensures Inv(Stop(s), offset)
  {
    var t := Stop(s);
    forall u | 0 <= u < |t.channels| ensures ChanOk(t.channels[u]) {
      assert ChanOk(s.channels[u]);
      if Some(u) in s.slots {
        var i :| 0 <= i < |s.slots| && s.slots[i] == Some(u);
        assert InSlot(s.channels, u, i, offset);
      }
    }
    forall u, v | 0 <= u < v < |t.channels| && t.channels[u].localId == t.channels[v].localId
      ensures t.channels[u].ended || t.channels[v].late
    {
      assert s.channels[u].localId == s.channels[v].localId;
    }
    StopPlaces(s, offset);
  }

  lemma StopPlaces(s: State, offset: uint32)
    requires Inv(s, offset) && s.running
    ensures AfterLoop(Stop(s), offset)
  {
    var t := Stop(s);
    forall i | 0 <= i < |t.dropped| && t.dropped[i].Some? ensures WasIn(t.channels, t.dropped[i].value, i, offset) {
      assert InSlot(s.channels, s.slots[i].value, i, offset);
    }
    forall u | 0 <= u < |t.channels| && !t.channels[u].ended ensures Placed(t, u, offset) {
      assert !s.channels[u].ended && !s.channels[u].late;
    }
  }

  lemma CreateKeeps(s: State, inbound: bool, offset: uint32)
    requires Inv(s, offset) && |s.slots| < MOST
    ensures Inv(Create(s, inbound, offset), offset)
  {
    var t, i, n := Create(s, inbound, offset), FirstFree(s.slots), |s.channels|;
    SlotIsInverse(i, IdOf(i, offset), offset);
    forall j | 0 <= j < |t.slots| && t.slots[j].Some? ensures InSlot(t.channels, t.slots[j].value, j, offset) {
      if j != i {
        assert InSlot(s.channels, s.slots[j].value, j, offset);
      }
    }
    forall u | 0 <= u < |t.channels| ensures ChanOk(t.channels[u]) {
      assert u < n ==> t.channels[u] == s.channels[u];
    }
    CreateKeepsReuse(s, inbound, offset);
    if s.running {
      CreateLists(s, inbound, offset);
    } else {
      CreateAfterLoop(s, inbound, offset);
    }
  }

  lemma CreateKeepsReuse(s: State, inbound: bool, offset: uint32)
    requires Inv(s, offset) && |s.slots| < MOST
    ensures Reuse(Create(s, inbound, offset).channels)
  {
    var t, i, n := Create(s, inbound, offset), FirstFree(s.slots), |s.channels|;
    SlotIsInverse(i, IdOf(i, offset), offset);
    forall u, v | 0 <= u < v < |t.channels| && t.channels[u].localId == t.channels[v].localId
      ensures t.channels[u].ended || t.channels[v].late
    {
      assert t.channels[u] == s.channels[u];
      if v < n {
        assert t.channels[v] == s.channels[v];
      }
    }
  }

  lemma CreateLists(s: State, inbound: bool, offset: uint32)
    requires Inv(s, offset) && |s.slots| < MOST && s.running
    ensures ListedUntilEnded(Create(s, inbound, offset), offset)
  {
    var t, i, n := Create(s, inbound, offset), FirstFree(s.slots), |s.channels|;
    SlotIsInverse(i, IdOf(i, offset), offset);
    forall u | 0 <= u < |t.channels| && !t.channels[u].ended
      ensures var j := SlotOf(t.channels[u].localId, offset); j < |t.slots| && t.slots[j] == Some(u)
    {
      assert u < n ==> t.channels[u] == s.channels[u];
    }
  }

  lemma CreateAfterLoop(s: State, inbound: bool, offset: uint32)
    requires Inv(s, offset) && |s.slots| < MOST && !s.running
    ensures AfterLoop(Create(s, inbound, offset), offset)
  {
    var t, i, n := Create(s, inbound, offset), FirstFree(s.slots), |s.channels|;
    SlotIsInverse(i, IdOf(i, offset), offset);
    assert i == |s.slots|;
    forall j | 0 <= j < |t.dropped| && t.dropped[j].Some? ensures WasIn(t.channels, t.dropped[j].value, j, offset) {
      assert WasIn(s.channels, s.dropped[j].value, j, offset);
    }
    forall u | 0 <= u < |t.channels| && !t.channels[u].ended ensures Placed(t, u, offset) {
      if u < n {
        assert t.channels[u] == s.channels[u] && Placed(s, u, offset);
      }
    }
  }

  /** A channel changes in place: its number stays, and it neither ends nor is closed. */
  predicate SameStanding(c: Chan, d: Chan) {
    d.localId == c.localId && d.ended == c.ended && d.closes == c.closes && d.late == c.late
  }

  lemma UpdateKeeps(s: State, u: nat, d: Chan, offset: uint32)
    requires Inv(s, offset) && u < |s.channels| && SameStanding(s.channels[u], d) && ChanOk(d)
    ensures Inv(s.(channels := s.channels[u := d]), offset)
  {
    var t := s.(channels := s.channels[u := d]);
    forall j | 0 <= j < |t.slots| && t.slots[j].Some? ensures InSlot(t.channels, t.slots[j].value, j, offset) {
      assert InSlot(s.channels, s.slots[j].value, j, offset);
    }
    forall v, w | 0 <= v < w < |t.channels| && t.channels[v].localId == t.channels[w].localId
      ensures t.channels[v].ended || t.channels[w].late
    {
      assert s.channels[v].localId == s.channels[w].localId;
    }
    UpdateAfterLoop(s, u, d, offset);
  }

  lemma UpdateAfterLoop(s: State, u: nat, d: Chan, offset: uint32)
    requires AfterLoop(s, offset) && u < |s.channels| && SameStanding(s.channels[u], d)
    ensures AfterLoop(s.(channels := s.channels[u := d]), offset)
  {
    if !s.running {
      var t := s.(channels := s.channels[u := d]);
      forall j | 0 <= j < |t.dropped| && t.dropped[j].Some? ensures WasIn(t.channels, t.dropped[j].value, j, offset) {
        assert WasIn(s.channels, s.dropped[j].value, j, offset);
      }
      forall v | 0 <= v < |t.channels| && !t.channels[v].ended ensures Placed(t, v, offset) {
        assert Placed(s, v, offset);
      }
    }
  }

  /** The peer ends channel u: it leaves the table. */
  lemma EndKeeps(s: State, u: nat, id: uint32, d: Chan, offset: uint32)
    requires Inv(s, offset) && s.running && Lookup(s.slots, id, offset) == Some(u) && u < |s.channels|
    requires d.localId == s.channels[u].localId && d.ended && !d.late && ChanOk(d)
    ensures s.channels[u].localId == id
    ensures Inv(Ended(s, u, id, d, offset), offset)
  {
    var i := SlotOf(id, offset);
    var t := Ended(s, u, id, d, offset);
    assert InSlot(s.channels, u, i, offset);
    SlotIsInverse(i, id, offset);
    forall j | 0 <= j < |t.slots| && t.slots[j].Some? ensures InSlot(t.channels, t.slots[j].value, j, offset) {
      assert InSlot(s.channels, s.slots[j].value, j, offset);
      SlotIsInverse(j, IdOf(j, offset), offset);
    }
    forall v | 0 <= v < |t.channels| && !t.channels[v].ended
      ensures var j := SlotOf(t.channels[v].localId, offset); j < |t.slots| && t.slots[j] == Some(v)
    {
      assert t.channels[v] == s.channels[v];
    }
    forall v, w | 0 <= v < w < |t.channels| && t.channels[v].localId == t.channels[w].localId
      ensures t.channels[v].ended || t.channels[w].late
    {
      assert s.channels[v].localId == s.channels[w].localId;
    }
  }

  lemma WriteKeeps(c: Chan, m: Message)
    requires ChanOk(c)
    ensures ChanOk(Write(c, m)) && SameStanding(c, Write(c, m))
  {
  }

  lemma HandleKeeps(s: State, u: nat, id: uint32, p: Packet, offset: uint32)
    requires Inv(s, offset) && s.running && Lookup(s.slots, id, offset) == Some(u) && u < |s.channels|
    ensures Inv(Handle(s, u, id, p, offset), offset)
  {
    var c := s.channels[u];
    assert InSlot(s.channels, u, SlotOf(id, offset), offset);
    match p {
      case CloseMsg =>
        WriteKeeps(c, Close);
        EndKeeps(s, u, id, Shut(Write(c, Close)).(ended := true), offset);
      case FailureMsg =>
        if c.inbound || c.decided {
          StopKeeps(s, offset);
        } else {
          EndKeeps(s, u, id, c.(decided := true, ended := true), offset);
        }
      case ConfirmMsg(sizeOk) =>
        if c.inbound || c.decided {
          StopKeeps(s, offset);
        } else {
          UpdateKeeps(s, u, c.(decided := true), offset);
          if !sizeOk {
            StopKeeps(s.(channels := s.channels[u := c.(decided := true)]), offset);
          }
        }
      case Harmless =>
      case Malformed => StopKeeps(s, offset);
    }
  }

  lemma NextKeeps(s: State, e: Event, offset: uint32)
    requires Inv(s, offset)
    ensures Inv(Next(s, e, offset), offset)
  {
    match e {
      case Open(inbound) =>
        if |s.slots| < MOST {
          CreateKeeps(s, inbound, offset);
        }
      case Receive(id, p) =>
        if s.running {
          var u := Lookup(s.slots, id, offset);
          if u == None || u.value >= |s.channels| {
            StopKeeps(s, offset);
          } else {
            HandleKeeps(s, u.value, id, p, offset);
          }
        }
      case Accept(u) =>
        if u < |s.channels| && !s.channels[u].decided {
          WriteKeeps(s.channels[u].(decided := true), Confirm);
          UpdateKeeps(s, u, Write(s.channels[u].(decided := true), Confirm), offset);
        }
      case Reject(u) =>
        if u < |s.channels| && !s.channels[u].decided {
          WriteKeeps(s.channels[u].(decided := true), Failure);
          UpdateKeeps(s, u, Write(s.channels[u].(decided := true), Failure), offset);
        }
      case Send(u, m) =>
        if u < |s.channels| {
          WriteKeeps(s.channels[u], m);
          UpdateKeeps(s, u, Write(s.channels[u], m), offset);
        }
      case Fail =>
        if s.running {
          StopKeeps(s, offset);
        }
    }
  }

  lemma {:induction false} RunsKeep(events: seq<Event>, offset: uint32)
    ensures Inv(Run(events, offset), offset)
  {
    if events != [] {
      RunsKeep(events[..|events| - 1], offset);
      NextKeeps(Run(events[..|events| - 1], offset), events[|events| - 1], offset);
    }
  }

  // ---------------------------------------------------------------- the results, for every run

  /** While the loop runs, looking a number up gives the channel that has it and has not ended, if there is one. */
  lemma LookupIsExact(events: seq<Event>, offset: uint32, id: uint32, u: nat)
    requires Run(events, offset).running
    ensures var s := Run(events, offset);
            Lookup(s.slots, id, offset) == Some(u) <==>
                u < |s.channels| && !s.channels[u].ended && s.channels[u].localId == id
  {
    RunsKeep(events, offset);
    var s := Run(events, offset);
    var i := SlotOf(id, offset);
    SlotIsInverse(i, id, offset);
    if Lookup(s.slots, id, offset) == Some(u) {
      assert InSlot(s.channels, u, i, offset);
    }
  }

  /** Channels in different slots are different and have different numbers. */
  lemma NumbersAreDistinct(events: seq<Event>, offset: uint32, i: nat, j: nat)
    requires var slots := Run(events, offset).slots; i < j < |slots| && slots[i].Some? && slots[j].Some?
    ensures var s := Run(events, offset);
            var u, v := s.slots[i].value, s.slots[j].value;
            u < |s.channels| && v < |s.channels| && u != v && s.channels[u].localId != s.channels[v].localId
  {
    RunsKeep(events, offset);
    var s := Run(events, offset);
    assert InSlot(s.channels, s.slots[i].value, i, offset) && InSlot(s.channels, s.slots[j].value, j, offset);
    SlotIsInverse(i, IdOf(i, offset), offset);
    SlotIsInverse(j, IdOf(j, offset), offset);
  }

  /**
   * A number goes to a second channel only after the peer's CLOSE or OPEN_FAILURE for the first one, or
   * to a channel that our side opens after the packet loop has ended.
   */
  lemma ReusedOnlyAfterEnd(events: seq<Event>, offset: uint32, u: nat, v: nat)
    requires var cs := Run(events, offset).channels; u < v < |cs| && cs[u].localId == cs[v].localId
    ensures var cs := Run(events, offset).channels; cs[u].ended || cs[v].late
  {
    RunsKeep(events, offset);
  }

  /** Some channel has the number id and has not been ended by the peer. */
  predicate InUse(channels: seq<Chan>, id: uint32) {
    exists u :: 0 <= u < |channels| && channels[u].localId == id && !channels[u].ended
  }

  /**
   * Exactly when opening a channel gives it a number that is still in use: the loop has ended, and the
   * slot that comes next was taken when it did.
   */
  lemma ReusedTooEarlyIff(events: seq<Event>, offset: uint32, inbound: bool)
    requires var s := Run(events, offset); (s.running || !inbound) && |s.slots| < MOST
    ensures var s := Run(events, offset);
            var cs := Run(events + [Open(inbound)], offset).channels;
            && |cs| == |s.channels| + 1
            && (InUse(s.channels, cs[|s.channels|].localId) <==>
                !s.running && |s.slots| < |s.dropped| && s.dropped[|s.slots|].Some?)
  {
    var s := Run(events, offset);
    RunsKeep(events, offset);
    assert (events + [Open(inbound)])[..|events|] == events;
    var i := FirstFree(s.slots);
    SlotIsInverse(i, IdOf(i, offset), offset);
    if s.running {
      FreeIsUnused(s, offset);
    } else {
      assert i == |s.slots|;
      LateNumber(s, offset);
    }
  }

  lemma FreeIsUnused(s: State, offset: uint32)
    requires Inv(s, offset) && s.running && |s.slots| < MOST
    ensures !InUse(s.channels, IdOf(FirstFree(s.slots), offset))
  {
    var i := FirstFree(s.slots);
    SlotIsInverse(i, IdOf(i, offset), offset);
  }

  lemma LateNumber(s: State, offset: uint32)
    requires Inv(s, offset) && !s.running && |s.slots| < MOST
    ensures InUse(s.channels, IdOf(|s.slots|, offset)) <==> |s.slots| < |s.dropped| && s.dropped[|s.slots|].Some?
  {
    var i := |s.slots|;
    SlotIsInverse(i, IdOf(i, offset), offset);
    if i < |s.dropped| && s.dropped[i].Some? {
      assert WasIn(s.channels, s.dropped[i].value, i, offset);
    }
    if InUse(s.channels, IdOf(i, offset)) {
      var u :| 0 <= u < |s.channels| && s.channels[u].localId == IdOf(i, offset) && !s.channels[u].ended;
      assert Placed(s, u, offset);
    }
  }

  /** A run in which it happens: a channel, the end of the loop, and another channel. */
  lemma ReusedTooEarly(offset: uint32)
    ensures var cs := Run([Open(false), Fail, Open(false)], offset).channels;
            |cs| == 2 && cs[0].localId == cs[1].localId == IdOf(0, offset) && !cs[0].ended && !cs[1].ended
  {
    var one, two := [Open(false)], [Open(false), Fail];
    RunStep([], Open(false), offset);
    assert [] + [Open(false)] == one;
    RunStep(one, Fail, offset);
    assert one + [Fail] == two;
    RunStep(two, Open(false), offset);
    assert two + [Open(false)] == [Open(false), Fail, Open(false)];
    OpenFailOpen(State([], [], true, []), offset);
  }

  lemma OpenFailOpen(s: State, offset: uint32)
    requires s == State([], [], true, [])
    ensures var cs := Next(Next(Next(s, Open(false), offset), Fail, offset), Open(false), offset).channels;
            |cs| == 2 && cs[0].localId == cs[1].localId == IdOf(0, offset) && !cs[0].ended && !cs[1].ended
  {
    var t := Create(s, false, offset);
    var c := t.channels[0];
    assert t.slots == [Some(0)] && t.channels == [c] && t.running;
    var w := Stop(t);
    assert w.slots == [] && w.channels == [Shut(c)];
  }

  lemma RunStep(events: seq<Event>, e: Event, offset: uint32)
    ensures Run(events + [e], offset) == Next(Run(events, offset), e, offset)
  {
    assert (events + [e])[..|events|] == events;
  }

  /** The Go channels of a channel are closed at most once, and nothing is sent behind its one CLOSE. */
  lemma ClosedOnce(events: seq<Event>, offset: uint32, u: nat, i: nat)
    requires u < |Run(events, offset).channels|
    ensures var c := Run(events, offset).channels[u];
            c.closes <= 1 && (i < |c.sent| && c.sent[i] == Close ==> i == |c.sent| - 1)
  {
    RunsKeep(events, offset);
    assert ChanOk(Run(events, offset).channels[u]);
  }

  /** The peer's CLOSE or OPEN_FAILURE for the channel with number id. */
  predicate Ends(e: Event, id: uint32) {
    e.Receive? && e.id == id && (e.packet == CloseMsg || e.packet == FailureMsg)
  }

  /** The event ends channel u, which has the number id in the table. */
  predicate EndsNow(s: State, e: Event, id: uint32, u: nat, offset: uint32) {
    Ends(e, id) && s.running && Lookup(s.slots, id, offset) == Some(u)
  }

  lemma HandleEnds(s: State, v: nat, id: uint32, p: Packet, offset: uint32, u: nat)
    requires v < |s.channels| && s.channels[v].localId == id && u < |Handle(s, v, id, p, offset).channels|
    ensures u < |s.channels|
    ensures var c := Handle(s, v, id, p, offset).channels[u];
            && c.localId == s.channels[u].localId
            && (c.ended ==> s.channels[u].ended || (u == v && (p == CloseMsg || p == FailureMsg)))
  {
  }

  lemma NextEnds(s: State, e: Event, offset: uint32, u: nat)
    requires Inv(s, offset) && u < |Next(s, e, offset).channels|
    ensures var c := Next(s, e, offset).channels[u];
            c.ended ==> EndsNow(s, e, c.localId, u, offset) || WasEnded(s, u, c.localId)
  {
    if e.Receive? && s.running {
      var v := Lookup(s.slots, e.id, offset);
      if v.Some? {
        assert InSlot(s.channels, v.value, SlotOf(e.id, offset), offset);
        SlotIsInverse(SlotOf(e.id, offset), e.id, offset);
        HandleEnds(s, v.value, e.id, e.packet, offset, u);
      }
    } else {
      assert u < |s.channels| ==> Next(s, e, offset).channels[u].ended == s.channels[u].ended;
    }
  }

  predicate WasEnded(s: State, u: nat, id: uint32) {
    u < |s.channels| && s.channels[u].ended && s.channels[u].localId == id
  }

  /** A channel has ended only if the peer said so, in a packet that was looked up as this very channel. */
  lemma {:induction false} EndedByPeer(events: seq<Event>, offset: uint32, u: nat)
    requires u < |Run(events, offset).channels| && Run(events, offset).channels[u].ended
    ensures exists k :: 0 <= k < |events| && EndsChannel(events, k, Run(events, offset).channels[u].localId, u, offset)
  {
    if events != [] {
      var n := |events| - 1;
      var id := Run(events, offset).channels[u].localId;
      RunsKeep(events[..n], offset);
      NextEnds(Run(events[..n], offset), events[n], offset, u);
      if EndsNow(Run(events[..n], offset), events[n], id, u, offset) {
        assert EndsChannel(events, n, id, u, offset);
      } else {
        EndedByPeer(events[..n], offset, u);
        var k :| 0 <= k < n && EndsChannel(events[..n], k, id, u, offset);
        assert events[..n][..k] == events[..k] && events[..n][k] == events[k];
        assert EndsChannel(events, k, id, u, offset);
      }
    }
  }

  /** The k-th event ends channel u. */
  predicate EndsChannel(events: seq<Event>, k: nat, id: uint32, u: nat, offset: uint32)
    requires k < |events|
  {
    EndsNow(Run(events[..k], offset), events[k], id, u, offset)
  }

  // ---------------------------------------------------------------- what is sent

  /** The packet with number id reaches channel u. */
  predicate Found(s: State, id: uint32, u: nat, offset: uint32) {
    s.running && Lookup(s.slots, id, offset) == Some(u)
  }

  /** What an event makes channel u send: an answer to the peer, a message of its user, or a CLOSE for a CLOSE. */
  function Says(s: State, e: Event, u: nat, offset: uint32): seq<Message>
    requires u < |s.channels|
  {
    var c := s.channels[u];
    if c.sentClose then []
    else if e == Accept(u) && c.inbound && !c.decided then [Confirm]
    else if e == Reject(u) && c.inbound && !c.decided then [Failure]
    else if e == Send(u, Data) then [Data]
    else if e == Send(u, Close) then [Close]
    else if e.Receive? && e.packet == CloseMsg && Found(s, e.id, u, offset) then [Close]
    else []
  }

  /** In every run, an event makes a channel send just that, and no other channel anything. */
  lemma SaysExactly(events: seq<Event>, e: Event, offset: uint32, u: nat)
    requires u < |Run(events, offset).channels|
    ensures u < |Run(events + [e], offset).channels|
    ensures Run(events + [e], offset).channels[u].sent ==
            Run(events, offset).channels[u].sent + Says(Run(events, offset), e, u, offset)
  {
    RunStep(events, e, offset);
    RunsKeep(events, offset);
    NextSays(Run(events, offset), e, offset, u);
  }

  lemma NextSays(s: State, e: Event, offset: uint32, u: nat)
    requires SlotsOk(s, offset) && u < |s.channels|
    ensures u < |Next(s, e, offset).channels|
    ensures Next(s, e, offset).channels[u].sent == s.channels[u].sent + Says(s, e, u, offset)
  {
    match e {
      case Receive(id, p) =>
        if s.running && Lookup(s.slots, id, offset).Some? {
          HandleSays(s, Lookup(s.slots, id, offset).value, id, p, offset, u);
        }
      case Open(_) =>
      case Accept(_) =>
      case Reject(_) =>
      case Send(_, _) =>
      case Fail =>
    }
  }

  lemma HandleSays(s: State, v: nat, id: uint32, p: Packet, offset: uint32, u: nat)
    requires SlotsOk(s, offset) && s.running && Lookup(s.slots, id, offset) == Some(v) && u < |s.channels|
    ensures v < |s.channels| && u < |Handle(s, v, id, p, offset).channels|
    ensures Handle(s, v, id, p, offset).channels[u].sent == s.channels[u].sent + Says(s, Receive(id, p), u, offset)
  {
    assert InSlot(s.channels, v, SlotOf(id, offset), offset);
  }

  /** How many answers to an OPEN are among some messages. */
  function Answers(sent: seq<Message>): nat {
    multiset(sent)[Confirm] + multiset(sent)[Failure]
  }

  /** In every run a channel of the peer is answered at most once, and only when it is decided; our own are not. */
  lemma {:induction false} AnsweredOnce(events: seq<Event>, offset: uint32, u: nat)
    requires u < |Run(events, offset).channels|
    ensures var c := Run(events, offset).channels[u];
            multiset(c.sent)[Confirm] + multiset(c.sent)[Failure] <= if c.inbound && c.decided then 1 else 0
  {
    if events != [] {
      var n := |events| - 1;
      var s := Run(events[..n], offset);
      if u < |s.channels| {
        AnsweredOnce(events[..n], offset, u);
        RunsKeep(events[..n], offset);
        NextAnswers(s, events[n], offset, u);
      } else {
        NewIsFresh(s, events[n], offset, u);
      }
    }
  }

  lemma NextAnswers(s: State, e: Event, offset: uint32, u: nat)
    requires Inv(s, offset) && u < |s.channels|
    requires var c := s.channels[u]; Answers(c.sent) <= if c.inbound && c.decided then 1 else 0
    ensures u < |Next(s, e, offset).channels|
    ensures var d := Next(s, e, offset).channels[u]; Answers(d.sent) <= if d.inbound && d.decided then 1 else 0
  {
    NextSays(s, e, offset, u);
    NextDecides(s, e, offset, u);
    SaysAnswer(s, e, u, offset);
  }

  /** At most one message, and an answer only to a channel of the peer that has not been decided. */
  lemma SaysAnswer(s: State, e: Event, u: nat, offset: uint32)
    requires u < |s.channels|
    ensures var c, said := s.channels[u], Says(s, e, u, offset);
            Answers(said) == 0 || (Answers(said) == 1 && c.inbound && !c.decided && Decides(s, e, u, offset))
  {
  }

  /** A channel stays what it is, stays decided, and is decided by what answers it. */
  lemma NextDecides(s: State, e: Event, offset: uint32, u: nat)
    requires SlotsOk(s, offset) && u < |s.channels|
    ensures u < |Next(s, e, offset).channels|
    ensures var c, d := s.channels[u], Next(s, e, offset).channels[u];
            && d.inbound == c.inbound && d.localId == c.localId && (c.decided ==> d.decided)
            && (!c.decided && d.decided <==> !c.decided && Decides(s, e, u, offset))
  {
    match e {
      case Receive(id, p) =>
        if s.running && Lookup(s.slots, id, offset).Some? {
          HandleDecides(s, Lookup(s.slots, id, offset).value, id, p, offset, u);
        }
      case Open(_) =>
      case Accept(_) =>
      case Reject(_) =>
      case Send(_, _) =>
      case Fail =>
    }
  }

  lemma HandleDecides(s: State, v: nat, id: uint32, p: Packet, offset: uint32, u: nat)
    requires SlotsOk(s, offset) && s.running && Lookup(s.slots, id, offset) == Some(v) && u < |s.channels|
    ensures v < |s.channels| && u < |Handle(s, v, id, p, offset).channels|
    ensures var c, d := s.channels[u], Handle(s, v, id, p, offset).channels[u];
            && d.inbound == c.inbound && d.localId == c.localId && (c.decided ==> d.decided)
            && (!c.decided && d.decided <==> !c.decided && Decides(s, Receive(id, p), u, offset))
  {
    assert InSlot(s.channels, v, SlotOf(id, offset), offset);
  }

  /** An answer to channel u: of our user to a channel of the peer, or of the peer to one of ours. */
  predicate Decides(s: State, e: Event, u: nat, offset: uint32)
    requires u < |s.channels|
  {
    if s.channels[u].inbound then e == Accept(u) || e == Reject(u)
    else e.Receive? && (e.packet == FailureMsg || e.packet.ConfirmMsg?) && Found(s, e.id, u, offset)
  }

  /**
   * In every run a CLOSE of the peer for a channel ends it: it leaves the table, its Go channels are closed,
   * and the last thing sent on it is a CLOSE.
   */
  lemma CloseIsAnswered(events: seq<Event>, offset: uint32, id: uint32, u: nat)
    requires Found(Run(events, offset), id, u, offset)
    ensures var t := Run(events + [Receive(id, CloseMsg)], offset);
            && t.running && Lookup(t.slots, id, offset) == None && u < |t.channels|
            && var c := t.channels[u];
               c.ended && c.closes == 1 && c.sentClose && c.sent != [] && c.sent[|c.sent| - 1] == Close
  {
    var s := Run(events, offset);
    RunStep(events, Receive(id, CloseMsg), offset);
    RunsKeep(events, offset);
    var i := SlotOf(id, offset);
    assert InSlot(s.channels, u, i, offset);
    SlotIsInverse(i, id, offset);
    OpenUntilClose(events, offset, u);
  }

  /** A channel that has not been closed refuses to send only behind its own CLOSE. */
  predicate ShutByClose(c: Chan) {
    c.closes == 0 ==> (c.sentClose <==> c.sent != [] && c.sent[|c.sent| - 1] == Close)
  }

  lemma {:induction false} OpenUntilClose(events: seq<Event>, offset: uint32, u: nat)
    requires u < |Run(events, offset).channels|
    ensures ShutByClose(Run(events, offset).channels[u])
  {
    if events != [] {
      var n := |events| - 1;
      var s := Run(events[..n], offset);
      if u < |s.channels| {
        OpenUntilClose(events[..n], offset, u);
        RunsKeep(events[..n], offset);
        NextOpenUntilClose(s, events[n], offset, u);
      } else {
        NewIsFresh(s, events[n], offset, u);
      }
    }
  }

  /** The peer opens channels only while the packet loop runs. */
  lemma {:induction false} LateIsOurs(events: seq<Event>, offset: uint32, u: nat)
    requires u < |Run(events, offset).channels|
    ensures var c := Run(events, offset).channels[u]; c.late ==> !c.inbound
  {
    if events != [] {
      var n := |events| - 1;
      var s := Run(events[..n], offset);
      if u < |s.channels| {
        LateIsOurs(events[..n], offset, u);
        RunsKeep(events[..n], offset);
        NextDecides(s, events[n], offset, u);
        NextStaysLate(s, events[n], offset, u);
      } else {
        assert events[n].Open?;
      }
    }
  }

  lemma NextStaysLate(s: State, e: Event, offset: uint32, u: nat)
    requires SlotsOk(s, offset) && u < |s.channels| && u < |Next(s, e, offset).channels|
    ensures Next(s, e, offset).channels[u].late == s.channels[u].late
  {
    if e.Receive? && s.running && Lookup(s.slots, e.id, offset).Some? {
      assert InSlot(s.channels, Lookup(s.slots, e.id, offset).value, SlotOf(e.id, offset), offset);
    }
  }

  /** A channel that was not there before has been opened by the event, and nothing has happened to it. */
  lemma NewIsFresh(s: State, e: Event, offset: uint32, u: nat)
    requires |s.channels| <= u < |Next(s, e, offset).channels|
    ensures e.Open?
    ensures var c := Next(s, e, offset).channels[u];
            c.inbound == e.inbound && !c.decided && !c.sentClose && c.sent == [] && c.closes == 0 && !c.ended
  {
  }

  lemma NextOpenUntilClose(s: State, e: Event, offset: uint32, u: nat)
    requires Inv(s, offset) && u < |s.channels| && ShutByClose(s.channels[u])
    ensures u < |Next(s, e, offset).channels| && ShutByClose(Next(s, e, offset).channels[u])
  {
    match e {
      case Receive(id, p) =>
        if s.running && Lookup(s.slots, id, offset).Some? {
          var v := Lookup(s.slots, id, offset).value;
          assert InSlot(s.channels, v, SlotOf(id, offset), offset);
          HandleOpenUntilClose(s, v, id, p, offset, u);
        }
      case Open(_) =>
      case Accept(_) =>
      case Reject(_) =>
      case Send(_, _) =>
      case Fail =>
    }
  }

  lemma HandleOpenUntilClose(s: State, v: nat, id: uint32, p: Packet, offset: uint32, u: nat)
    requires v < |s.channels| && u < |s.channels| && ShutByClose(s.channels[u])
    ensures u < |Handle(s, v, id, p, offset).channels| && ShutByClose(Handle(s, v, id, p, offset).channels[u])
  {
  }

  /**
   * In every run the packet loop ends exactly with a failure of the connection, a packet for a number that is
   * not in use, one that cannot be read, an answer to a channel of the peer or to one that has been answered,
   * and a confirmation with a bad packet size.
   */
  lemma LoopEndsIff(events: seq<Event>, e: Event, offset: uint32)
    requires Run(events, offset).running
    ensures var s := Run(events, offset);
            !Run(events + [e], offset).running <==>
              || e == Fail
              || (e.Receive? && forall u :: 0 <= u < |s.channels| ==> !Found(s, e.id, u, offset))
              || (e.Receive? && e.packet == Malformed)
              || (e.Receive? && (e.packet == FailureMsg || e.packet.ConfirmMsg?)
                  && exists u :: 0 <= u < |s.channels| && Found(s, e.id, u, offset)
                                 && (s.channels[u].inbound || s.channels[u].decided))
              || (e.Receive? && e.packet == ConfirmMsg(false))
  {
    var s := Run(events, offset);
    RunStep(events, e, offset);
    RunsKeep(events, offset);
    if e.Receive? {
      var v := Lookup(s.slots, e.id, offset);
      if v.Some? {
        assert InSlot(s.channels, v.value, SlotOf(e.id, offset), offset);
        assert Found(s, e.id, v.value, offset);
      }
    }
  }
}
