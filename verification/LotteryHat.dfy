/** Who is in the hat of a slot, told from the heartbeats of a run (src/lottery.cpp). */
module LotteryHat {
  import opened Options
  import opened ByteStrings
  import opened Powers
  import opened LotteryCodec
  import opened LotteryRegistry

  /** The frozen ids of a slot: known before it opened, and heard from at most 180 seconds before. */
  lemma HatIs(nodes: map<Id, Node>, slot: int, id: Id)
    ensures id in FrozenIds(nodes, slot) <==>
            id in nodes && nodes[id].joined < 60 * slot && nodes[id].lastSeen >= 60 * slot - 180
  {
    hide FrozenIds, Pow;
    FrozenIdsOf(nodes, slot);
  }

  /** The ids drawn from: the hat of the slot, or with an empty hat those heard from in the last 180 seconds. */
  lemma ActiveIff(nodes: map<Id, Node>, slot: int, now: int, id: Id)
    ensures id in ActiveForSlot(nodes, slot, now) <==>
            && id in nodes
            && if exists x :: InHat(nodes, slot, x) then InHat(nodes, slot, id) else now - nodes[id].lastSeen <= 180
  {
    hide FrozenIds, LiveIds, Pow;
    FrozenIdsOf(nodes, slot);
    LiveIdsOf(nodes, now);
    forall x ensures InHat(nodes, slot, x) <==> x in FrozenIds(nodes, slot) {
      HatIs(nodes, slot, x);
    }
    if FrozenIds(nodes, slot) != [] {
      assert FrozenIds(nodes, slot)[0] in FrozenIds(nodes, slot);
      assert InHat(nodes, slot, FrozenIds(nodes, slot)[0]);
    }
  }

  predicate InHat(nodes: map<Id, Node>, slot: int, id: Id) {
    id in nodes && nodes[id].joined < 60 * slot && nodes[id].lastSeen >= 60 * slot - 180
  }

  // ----- One heartbeat

  /** The sender knows this id under this handle. */
  predicate KnownAs(r: Reg, id: Id, norm: Handle) {
    id in r.nodes && r.nodes[id].handle == norm
  }

  /** A heartbeat is accepted exactly when nobody else alive is indexed for the handle and the node is not alive under another. */
  lemma AcceptedIff(idOf: Bytes -> Id, r: Reg, b: Beat, r': Reg, ok: bool)
    requires Heard(idOf, r, b, r', ok) && Admissible(idOf, r, b)
    ensures var id, norm := idOf(b.script), b.norm.value;
      ok <==>
      && !(norm in r.byHandle && r.byHandle[norm] != id && r.byHandle[norm] in r.nodes && b.now - r.nodes[r.byHandle[norm]].lastSeen <= 180)
      && !(id in r.nodes && r.nodes[id].handle != norm && b.now - r.nodes[id].lastSeen <= 180)
  {
    hide Displaced, Entered, Evicts, Pow;
  }

  /** What an accepted heartbeat leaves of its sender, unless that was evicted: its joining time is kept under the same handle. */
  lemma SenderIs(idOf: Bytes -> Id, r: Reg, b: Beat, r': Reg)
    requires Heard(idOf, r, b, r', true)
    ensures b.norm.Some?
    ensures var id, norm := idOf(b.script), b.norm.value;
      id in r'.nodes ==>
        r'.nodes[id] == Node(id, b.script, b.now, if KnownAs(r, id, norm) then r.nodes[id].joined else b.now, norm, b.userId)
  {
    hide Pow, IsOldest;
  }

  /** Whether the sender of an accepted heartbeat is in the hat of a slot. */
  lemma SenderInHatIff(idOf: Bytes -> Id, r: Reg, b: Beat, r': Reg, slot: int)
    requires Heard(idOf, r, b, r', true)
    ensures b.norm.Some?
    ensures var id := idOf(b.script);
      id in FrozenIds(r'.nodes, slot) <==>
      && id in r'.nodes && b.now >= 60 * slot - 180
      && if KnownAs(r, id, b.norm.value) then r.nodes[id].joined < 60 * slot else b.now < 60 * slot
  {
    hide Heard, FrozenIds, Pow;
    SenderIs(idOf, r, b, r');
    HatIs(r'.nodes, slot, idOf(b.script));
  }

  /** Who comes, or comes under another handle, after the slot opened is not in its hat. */
  lemma LateComersWait(idOf: Bytes -> Id, r: Reg, b: Beat, r': Reg, slot: int)
    requires Heard(idOf, r, b, r', true) && b.now >= 60 * slot
    requires b.norm.Some? && !KnownAs(r, idOf(b.script), b.norm.value)
    ensures idOf(b.script) !in FrozenIds(r'.nodes, slot)
  {
    hide Heard, FrozenIds, Pow;
    SenderInHatIff(idOf, r, b, r', slot);
  }

  /** A late comer is drawn from all the same if and only if the hat is empty and it was heard in the last 180 seconds. */
  lemma LateComerDrawsIff(idOf: Bytes -> Id, r: Reg, b: Beat, r': Reg, slot: int, now: int)
    requires Heard(idOf, r, b, r', true) && b.now >= 60 * slot
    requires b.norm.Some? && !KnownAs(r, idOf(b.script), b.norm.value)
    ensures var id := idOf(b.script);
      id in ActiveForSlot(r'.nodes, slot, now) <==>
      id in r'.nodes && FrozenIds(r'.nodes, slot) == [] && now - b.now <= 180
  {
    var id := idOf(b.script);
    SenderIs(idOf, r, b, r');
    LateComersWait(idOf, r, b, r', slot);
    hide Heard, FrozenIds, LiveIds, Pow;
    LiveIdsOf(r'.nodes, now);
  }

  /**
   * A heartbeat after the slot opened brings its sender into the hat if and only if that was known under the same
   * handle since before the slot, and had been silent for more than 180 seconds when it opened.
   */
  lemma ComesBackIff(idOf: Bytes -> Id, r: Reg, b: Beat, r': Reg, slot: int)
    requires Heard(idOf, r, b, r', true) && b.now >= 60 * slot
    ensures b.norm.Some?
    ensures var id := idOf(b.script);
      id !in FrozenIds(r.nodes, slot) && id in FrozenIds(r'.nodes, slot) <==>
      id in r'.nodes && KnownAs(r, id, b.norm.value) && r.nodes[id].joined < 60 * slot && r.nodes[id].lastSeen < 60 * slot - 180
  {
    hide Heard, FrozenIds, Pow;
    SenderInHatIff(idOf, r, b, r', slot);
    HatIs(r.nodes, slot, idOf(b.script));
  }

  /** A node first heard at second 0 and then silent is back in the hat of slot 10 after a heartbeat at second 610. */
  lemma SilentNodeComesBack(idOf: Bytes -> Id, a: Bytes, h: Handle) returns (ops: seq<Op>, states: seq<Reg>)
    requires 0 < |a| <= MAX_HEARTBEAT_SCRIPT && idOf(a) != 0
    ensures IsRun(idOf, ops, states) && |states| == 3 && ops[1].Hear? && ops[1].beat.now == 610
    ensures idOf(a) !in FrozenIds(states[1].nodes, 10) && idOf(a) in FrozenIds(states[2].nodes, 10)
  {
    hide Pow, FrozenIds;
    var i := idOf(a);
    var b1, b2 := Beat(a, 0, Some(h), 0, true, [], false), Beat(a, 610, Some(h), 0, true, [], false);
    var s1, s2 := Reg(map[i := Node(i, a, 0, 0, h, 0)], map[h := i], 0, []), Reg(map[i := Node(i, a, 610, 0, h, 0)], map[h := i], 0, []);
    ops, states := [Hear(b1), Hear(b2)], [EMPTY, s1, s2];
    Accepted(idOf, EMPTY, b1, s1);
    assert |s2.nodes| == 1;
    assert Entered(Displaced(s1, i, h), i, h, b2) == s2;
    assert Step(idOf, s1, ops[1], s2);
    hide Step;
    assert Follows(idOf, ops, states, 0) && Follows(idOf, ops, states, 1);
    HatIs(s1.nodes, 10, i);
    HatIs(s2.nodes, 10, i);
  }

  // ----- Runs

  /** The operation at `j` is an accepted heartbeat of `id`. */
  ghost predicate Beats(idOf: Bytes -> Id, ops: seq<Op>, states: seq<Reg>, j: nat, id: Id) {
    && j < |ops| && |states| == |ops| + 1 && ops[j].Hear? && idOf(ops[j].beat.script) == id
    && ops[j].beat.norm.Some? && Heard(idOf, states[j], ops[j].beat, states[j + 1], true)
  }

  /** What one operation does to a node: without a heartbeat of its own it stays as it is, or goes. */
  lemma NodeStays(idOf: Bytes -> Id, ops: seq<Op>, states: seq<Reg>, j: nat, id: Id)
    requires IsRun(idOf, ops, states) && j < |ops| && id in states[j + 1].nodes && !Beats(idOf, ops, states, j, id)
    ensures id in states[j].nodes && states[j + 1].nodes[id] == states[j].nodes[id]
  {
    var r, r' := states[j], states[j + 1];
    assert Follows(idOf, ops, states, j);
    hide Pow, IsOldest;
    match ops[j]
    case Hear(b) =>
      if Heard(idOf, r, b, r', true) {
        assert idOf(b.script) != id;
        OtherStays(idOf, r, b, r', id);
      }
    case SetScript(script) =>
    case Reset =>
  }

  lemma OtherStays(idOf: Bytes -> Id, r: Reg, b: Beat, r': Reg, id: Id)
    requires Heard(idOf, r, b, r', true) && idOf(b.script) != id && id in r'.nodes
    ensures id in r.nodes && r'.nodes[id] == r.nodes[id]
  {
    hide Pow, IsOldest;
  }

  /** The heartbeat at `j` made the node a member under its handle, and it has been one up to state `i`. */
  ghost predicate Joins(idOf: Bytes -> Id, ops: seq<Op>, states: seq<Reg>, j: nat, i: nat, id: Id)
    requires i < |states|
  {
    && j < i && Beats(idOf, ops, states, j, id) && !KnownAs(states[j], id, ops[j].beat.norm.value)
    && forall k :: j < k <= i ==> KnownAs(states[k], id, ops[j].beat.norm.value)
  }

  /** The heartbeat at `j` is the last accepted one of the node before state `i`. */
  ghost predicate LastBeat(idOf: Bytes -> Id, ops: seq<Op>, states: seq<Reg>, j: nat, i: nat, id: Id) {
    j < i && Beats(idOf, ops, states, j, id) && forall k :: j < k < i ==> !Beats(idOf, ops, states, k, id)
  }

  lemma {:induction false} JoinedThen(idOf: Bytes -> Id, ops: seq<Op>, states: seq<Reg>, j: nat, i: nat, id: Id)
    requires IsRun(idOf, ops, states) && i < |states| && Joins(idOf, ops, states, j, i, id)
    ensures id in states[i].nodes && states[i].nodes[id].joined == ops[j].beat.now
  {
    hide Heard, IsRun, Pow;
    assert KnownAs(states[i], id, ops[j].beat.norm.value);
    if i == j + 1 {
      SenderIs(idOf, states[j], ops[j].beat, states[i]);
    } else {
      JoinedThen(idOf, ops, states, j, i - 1, id);
      if Beats(idOf, ops, states, i - 1, id) {
        SenderIs(idOf, states[i - 1], ops[i - 1].beat, states[i]);
        assert KnownAs(states[i - 1], id, ops[j].beat.norm.value);
      } else {
        NodeStays(idOf, ops, states, i - 1, id);
      }
    }
  }

  lemma {:induction false} SeenThen(idOf: Bytes -> Id, ops: seq<Op>, states: seq<Reg>, j: nat, i: nat, id: Id)
    requires IsRun(idOf, ops, states) && i < |states| && LastBeat(idOf, ops, states, j, i, id) && id in states[i].nodes
    ensures states[i].nodes[id].lastSeen == ops[j].beat.now
  {
    hide Heard, IsRun, Pow;
    if i == j + 1 {
      SenderIs(idOf, states[j], ops[j].beat, states[i]);
    } else {
      NodeStays(idOf, ops, states, i - 1, id);
      SeenThen(idOf, ops, states, j, i - 1, id);
    }
  }

  /** Every node of a run has joined by an accepted heartbeat and has a last one. */
  lemma {:induction false} NodeStory(idOf: Bytes -> Id, ops: seq<Op>, states: seq<Reg>, i: nat, id: Id) returns (first: nat, last: nat)
    requires IsRun(idOf, ops, states) && i < |states| && id in states[i].nodes
    ensures Joins(idOf, ops, states, first, i, id) && LastBeat(idOf, ops, states, last, i, id)
  {
    hide Heard, Pow;
    assert i > 0;
    var r, r' := states[i - 1], states[i];
    hide IsRun;
    if Beats(idOf, ops, states, i - 1, id) {
      var norm := ops[i - 1].beat.norm.value;
      SenderIs(idOf, r, ops[i - 1].beat, r');
      last := i - 1;
      if KnownAs(r, id, norm) {
        var l;
        first, l := NodeStory(idOf, ops, states, i - 1, id);
        assert KnownAs(states[i - 1], id, ops[first].beat.norm.value);
        assert KnownAs(states[i], id, ops[first].beat.norm.value);
      } else {
        first := i - 1;
      }
    } else {
      NodeStays(idOf, ops, states, i - 1, id);
      first, last := NodeStory(idOf, ops, states, i - 1, id);
      assert KnownAs(states[i - 1], id, ops[first].beat.norm.value);
      assert KnownAs(states[i], id, ops[first].beat.norm.value);
    }
  }

  /**
   * In every run, an id is in the hat of a slot if and only if it is a member under its handle by a heartbeat from
   * before the slot opened, and its last heartbeat is not older than 180 seconds before that.
   */
  lemma HatIff(idOf: Bytes -> Id, ops: seq<Op>, states: seq<Reg>, i: nat, id: Id, slot: int)
    requires IsRun(idOf, ops, states) && i < |states|
    ensures id in FrozenIds(states[i].nodes, slot) <==>
      && (exists j: nat :: Joins(idOf, ops, states, j, i, id) && ops[j].beat.now < 60 * slot)
      && (exists j: nat :: LastBeat(idOf, ops, states, j, i, id) && ops[j].beat.now >= 60 * slot - 180)
  {
    hide IsRun, FrozenIds, Joins, LastBeat, Pow;
    HatIs(states[i].nodes, slot, id);
    forall j: nat | Joins(idOf, ops, states, j, i, id) ensures id in states[i].nodes {
      JoinedThen(idOf, ops, states, j, i, id);
    }
    if id in states[i].nodes {
      var first, last := NodeStory(idOf, ops, states, i, id);
      IsBeat(idOf, ops, states, first, last, i, id);
      JoinedThen(idOf, ops, states, first, i, id);
      SeenThen(idOf, ops, states, last, i, id);
      forall j: nat | Joins(idOf, ops, states, j, i, id) ensures j < |ops| && ops[j].Hear? && ops[j].beat.now == states[i].nodes[id].joined {
        IsBeat(idOf, ops, states, j, last, i, id);
        JoinedThen(idOf, ops, states, j, i, id);
      }
      forall j: nat | LastBeat(idOf, ops, states, j, i, id) ensures j < |ops| && ops[j].Hear? && ops[j].beat.now == states[i].nodes[id].lastSeen {
        IsBeat(idOf, ops, states, first, j, i, id);
        SeenThen(idOf, ops, states, j, i, id);
      }
    }
  }

  lemma IsBeat(idOf: Bytes -> Id, ops: seq<Op>, states: seq<Reg>, first: nat, last: nat, i: nat, id: Id)
    requires i < |states| && Joins(idOf, ops, states, first, i, id) && LastBeat(idOf, ops, states, last, i, id)
    ensures first < |ops| && ops[first].Hear? && last < |ops| && ops[last].Hear?
  {
  }

  /** In every run, each id in the hat of a slot had a heartbeat accepted before the slot opened. */
  lemma HatHasBeaten(idOf: Bytes -> Id, ops: seq<Op>, states: seq<Reg>, i: nat, id: Id, slot: int) returns (j: nat)
    requires IsRun(idOf, ops, states) && i < |states| && id in FrozenIds(states[i].nodes, slot)
    ensures j < i && Beats(idOf, ops, states, j, id) && ops[j].beat.now < 60 * slot
  {
    hide IsRun, FrozenIds, Pow;
    HatIff(idOf, ops, states, i, id, slot);
    j :| Joins(idOf, ops, states, j, i, id) && ops[j].beat.now < 60 * slot;
  }

  /**
   * In every run, whoever is drawn from had a heartbeat accepted that was verified, carried a script of its id of
   * allowed size, pinned to it if the handle is pinned, and did not come from the baked seed itself.
   */
  lemma OnlyVerifiedDraw(idOf: Bytes -> Id, ops: seq<Op>, states: seq<Reg>, i: nat, id: Id, slot: int, now: int) returns (j: nat)
    requires IsRun(idOf, ops, states) && i < |states| && id in ActiveForSlot(states[i].nodes, slot, now)
    ensures j < i && j < |ops| && ops[j].Hear?
    ensures var b := ops[j].beat;
      && b.verified && idOf(b.script) == id != 0 && 0 < |b.script| <= 520 && (b.pin == [] || b.pin == b.script)
      && b.norm.Some? && id in states[i].nodes && states[i].nodes[id].handle == b.norm.value && states[i].nodes[id].script == b.script
      && !(b.bakedSeed && states[j].localId == id)
  {
    hide IsRun, ActiveForSlot, Pow;
    ActiveIff(states[i].nodes, slot, now, id);
    var first, last := NodeStory(idOf, ops, states, i, id);
    j := last;
    SentThen(idOf, ops, states, j, i, id);
    hide Joins;
  }

  lemma {:induction false} SentThen(idOf: Bytes -> Id, ops: seq<Op>, states: seq<Reg>, j: nat, i: nat, id: Id)
    requires IsRun(idOf, ops, states) && i < |states| && LastBeat(idOf, ops, states, j, i, id) && id in states[i].nodes
    ensures states[i].nodes[id].script == ops[j].beat.script && states[i].nodes[id].handle == ops[j].beat.norm.value
  {
    hide Heard, IsRun, Pow;
    if i == j + 1 {
      SenderIs(idOf, states[j], ops[j].beat, states[i]);
    } else {
      NodeStays(idOf, ops, states, i - 1, id);
      SentThen(idOf, ops, states, j, i - 1, id);
    }
  }

  /** A full registry loses the node heard from longest ago: whoever goes for lack of room was seen no later than all who stay. */
  lemma OldestGoes(idOf: Bytes -> Id, r: Reg, b: Beat, r': Reg, gone: Id, j: Id)
    requires Heard(idOf, r, b, r', true) && gone != idOf(b.script) && gone in r.nodes && gone !in r'.nodes
    requires b.norm.Some? && !(b.norm.value in r.byHandle && r.byHandle[b.norm.value] == gone) && j in r'.nodes
    ensures r.nodes[gone].lastSeen <= r'.nodes[j].lastSeen && gone != r.localId
  {
    hide Pow;
    var id, norm := idOf(b.script), b.norm.value;
    var e := Entered(Displaced(r, id, norm), id, norm, b);
    assert gone in e.nodes && e.nodes[gone] == r.nodes[gone];
    var x :| IsOldest(e.nodes, x) && r' ==
      if x == e.localId then e else e.(nodes := e.nodes - {x}, byHandle := e.byHandle - {e.nodes[x].handle});
    assert x == gone;
    assert Older(e.nodes, gone, j);
  }

  /** The registry holds at most 4096 nodes after a heartbeat, if it did before and its oldest node is not the local one. */
  lemma SizeIsLimited(idOf: Bytes -> Id, r: Reg, b: Beat, r': Reg, ok: bool)
    requires Heard(idOf, r, b, r', ok) && |r.nodes| <= 4096
    ensures |r'.nodes| <= 4096 || (|r'.nodes| == 4097 && r.localId in r'.nodes && IsOldest(r'.nodes, r.localId))
  {
    hide Pow, IsOldest, Entered, Displaced;
    if Admissible(idOf, r, b) {
      var id, norm := idOf(b.script), b.norm.value;
      DisplacedSize(r, id, norm);
      if ok {
        EnteredSize(r, id, norm, b);
        var e := Entered(Displaced(r, id, norm), id, norm, b);
        assert e.localId == r.localId by { SameLocal(r, id, norm, b); }
        if |e.nodes| > MAX_ACTIVE_NODES {
          forall x | IsOldest(e.nodes, x) ensures x in e.nodes {
            OldestIn(e.nodes, x);
          }
          var gone :| IsOldest(e.nodes, gone) && gone in e.nodes && r' ==
            if gone == e.localId then e else e.(nodes := e.nodes - {gone}, byHandle := e.byHandle - {e.nodes[gone].handle});
          OneLess(e.nodes, gone);
        }
      }
    }
  }

  lemma SameLocal(r: Reg, id: Id, norm: Handle, b: Beat)
    ensures Entered(Displaced(r, id, norm), id, norm, b).localId == r.localId
  {
  }

  lemma DisplacedSize(r: Reg, id: Id, norm: Handle)
    ensures |Displaced(r, id, norm).nodes| <= |r.nodes|
  {
    var d := Displaced(r, id, norm);
    Smaller(d.nodes.Keys, r.nodes.Keys);
    assert |d.nodes| == |d.nodes.Keys| && |r.nodes| == |r.nodes.Keys|;
  }

  lemma OldestIn(nodes: map<Id, Node>, id: Id)
    requires IsOldest(nodes, id)
    ensures id in nodes
  {
  }

  lemma OneLess(nodes: map<Id, Node>, id: Id)
    requires id in nodes
    ensures |nodes - {id}| == |nodes| - 1
  {
    assert (nodes - {id}).Keys == nodes.Keys - {id};
    assert |nodes| == |nodes.Keys| && |nodes - {id}| == |(nodes - {id}).Keys|;
  }
}
