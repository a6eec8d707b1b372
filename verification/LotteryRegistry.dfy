/** The registry of lottery nodes: heartbeats, handles and the active set of a slot (src/lottery.cpp). */
module LotteryRegistry {
  import opened Options
  import opened ByteStrings
  import opened Powers
  import opened LotteryCodec
  import LotteryTime

  const HEARTBEAT_TTL_SECONDS := 180
  const MAX_ACTIVE_NODES := 4096
  const MAX_HEARTBEAT_SCRIPT := 520

  type Handle = Bytes

  datatype Node = Node(id: Id, script: Bytes, lastSeen: int, joined: int, handle: Handle, userId: nat)

  /** Nodes by id, ids by handle, and the local node (id 0: none yet). */
  datatype Reg = Reg(nodes: map<Id, Node>, byHandle: map<Handle, Id>, localId: Id, localScript: Bytes)

  /**
   * A heartbeat as it arrives: `norm` is the normalized handle, if it is one; `pin` the script the
   * allowlist pins the handle to, if any.
   */
  datatype Beat = Beat(script: Bytes, now: int, norm: Option<Handle>, userId: nat, verified: bool, pin: Bytes, bakedSeed: bool)

  predicate Live(n: Node, now: int) {
    now - n.lastSeen <= HEARTBEAT_TTL_SECONDS
  }

  /** The checks that do not look at the nodes. */
  predicate Admissible(idOf: Bytes -> Id, r: Reg, b: Beat) {
    var id := idOf(b.script);
    && !(b.bakedSeed && id == r.localId && r.localId != 0)
    && b.verified && 0 < |b.script| <= MAX_HEARTBEAT_SCRIPT && id != 0
    && b.norm.Some? && (b.pin == [] || b.pin == b.script)
  }

  /** Another node holds the handle and is alive. */
  predicate HandleTaken(r: Reg, id: Id, norm: Handle, now: int) {
    norm in r.byHandle && r.byHandle[norm] != id && r.byHandle[norm] in r.nodes && Live(r.nodes[r.byHandle[norm]], now)
  }

  /** The node itself is alive under another handle. */
  predicate HandleChanges(r: Reg, id: Id, norm: Handle, now: int) {
    id in r.nodes && r.nodes[id].handle != norm && Live(r.nodes[id], now)
  }

  /** The expired holder of the handle makes room. */
  function Displaced(r: Reg, id: Id, norm: Handle): Reg {
    if norm in r.byHandle && r.byHandle[norm] != id
    then r.(nodes := r.nodes - {r.byHandle[norm]}, byHandle := r.byHandle - {norm}) else r
  }

  function Entered(r: Reg, id: Id, norm: Handle, b: Beat): Reg {
    var known := id in r.nodes && r.nodes[id].handle == norm;
    var freed := if id in r.nodes && !known then r.byHandle - {r.nodes[id].handle} else r.byHandle;
    var joined := if known then r.nodes[id].joined else b.now;
    r.(nodes := r.nodes[id := Node(id, b.script, b.now, joined, norm, b.userId)], byHandle := freed[norm := id])
  }

  /** The node heard from longest ago; the smallest id among equals. */
  ghost predicate IsOldest(nodes: map<Id, Node>, id: Id) {
    id in nodes && forall j :: j in nodes ==> Older(nodes, id, j)
  }

  predicate Older(nodes: map<Id, Node>, i: Id, j: Id) {
    && i in nodes && j in nodes
    && (nodes[i].lastSeen < nodes[j].lastSeen || (nodes[i].lastSeen == nodes[j].lastSeen && i <= j))
  }

  ghost predicate Evicts(r: Reg, r': Reg) {
    if |r.nodes| > MAX_ACTIVE_NODES then
      exists gone :: IsOldest(r.nodes, gone) && r' ==
        if gone == r.localId then r else r.(nodes := r.nodes - {gone}, byHandle := r.byHandle - {r.nodes[gone].handle})
    else r' == r
  }

  /** What a heartbeat does to the registry, and whether it is accepted. */
  ghost predicate Heard(idOf: Bytes -> Id, r: Reg, b: Beat, r': Reg, ok: bool) {
    if !Admissible(idOf, r, b) then r' == r && !ok
    else
      var id, norm := idOf(b.script), b.norm.value;
      if HandleTaken(r, id, norm, b.now) then r' == r && !ok
      else if HandleChanges(r, id, norm, b.now) then r' == Displaced(r, id, norm) && !ok
      else ok && Evicts(Entered(Displaced(r, id, norm), id, norm, b), r')
  }

  function SetLocal(idOf: Bytes -> Id, r: Reg, script: Bytes): Reg {
    if script == [] then r
    else
      var id := idOf(script);
      var nodes := if r.localId != id && r.localId != 0 then r.nodes - {r.localId} else r.nodes;
      r.(nodes := nodes, localScript := script, localId := id)
  }

  // ----- The invariant

  /** A node under its own id, with a non-empty script of that id, found again by its handle. */
  predicate NodeOk(idOf: Bytes -> Id, r: Reg, id: Id)
    requires id in r.nodes
  {
    var n := r.nodes[id];
    && n.id == id != 0 && id == idOf(n.script) && 0 < |n.script| <= MAX_HEARTBEAT_SCRIPT
    && n.handle in r.byHandle && r.byHandle[n.handle] == id
  }

  ghost predicate RegOk(idOf: Bytes -> Id, r: Reg) {
    forall id :: id in r.nodes ==> NodeOk(idOf, r, id)
  }

  /** No two nodes share a handle. */
  lemma HandlesAreUnique(idOf: Bytes -> Id, r: Reg, i: Id, j: Id)
    requires RegOk(idOf, r) && i in r.nodes && j in r.nodes && r.nodes[i].handle == r.nodes[j].handle
    ensures i == j
  {
    assert NodeOk(idOf, r, i) && NodeOk(idOf, r, j);
  }

  lemma DisplacedKeeps(idOf: Bytes -> Id, r: Reg, id: Id, norm: Handle)
    requires RegOk(idOf, r)
    ensures RegOk(idOf, Displaced(r, id, norm))
    ensures forall j :: j in Displaced(r, id, norm).nodes && j != id ==> Displaced(r, id, norm).nodes[j].handle != norm
  {
    hide Pow;
    var d := Displaced(r, id, norm);
    forall j | j in d.nodes ensures NodeOk(idOf, d, j) && (j != id ==> d.nodes[j].handle != norm) {
      assert j in r.nodes && d.nodes[j] == r.nodes[j] && NodeOk(idOf, r, j);
    }
  }

  lemma EnteredKeeps(idOf: Bytes -> Id, r: Reg, id: Id, norm: Handle, b: Beat)
    requires RegOk(idOf, r) && id == idOf(b.script) != 0 && 0 < |b.script| <= MAX_HEARTBEAT_SCRIPT
    requires forall j :: j in r.nodes && j != id ==> r.nodes[j].handle != norm
    ensures RegOk(idOf, Entered(r, id, norm, b))
  {
    hide Pow;
    var e := Entered(r, id, norm, b);
    forall j | j in e.nodes ensures NodeOk(idOf, e, j) {
      if j != id {
        assert NodeOk(idOf, r, j);
        if id in r.nodes {
          assert NodeOk(idOf, r, id);
        }
      }
    }
  }

  lemma EvictsKeeps(idOf: Bytes -> Id, r: Reg, r': Reg)
    requires RegOk(idOf, r) && Evicts(r, r')
    ensures RegOk(idOf, r')
  {
    hide Pow;
    forall j | j in r'.nodes ensures NodeOk(idOf, r', j) {
      assert NodeOk(idOf, r, j);
    }
  }

  lemma HeardKeeps(idOf: Bytes -> Id, r: Reg, b: Beat, r': Reg, ok: bool)
    requires RegOk(idOf, r) && Heard(idOf, r, b, r', ok)
    ensures RegOk(idOf, r')
  {
    if Admissible(idOf, r, b) {
      hide RegOk, Displaced, Entered, Evicts;
      var id, norm := idOf(b.script), b.norm.value;
      DisplacedKeeps(idOf, r, id, norm);
      var d := Displaced(r, id, norm);
      EnteredKeeps(idOf, d, id, norm, b);
      if ok {
        EvictsKeeps(idOf, Entered(d, id, norm, b), r');
      }
    }
  }

  lemma SetLocalKeeps(idOf: Bytes -> Id, r: Reg, script: Bytes)
    requires RegOk(idOf, r)
    ensures RegOk(idOf, SetLocal(idOf, r, script))
  {
    hide Pow;
    var s := SetLocal(idOf, r, script);
    forall j | j in s.nodes ensures NodeOk(idOf, s, j) {
      assert NodeOk(idOf, r, j);
    }
  }

  datatype Op = Hear(beat: Beat) | SetScript(script: Bytes) | Reset

  ghost predicate Step(idOf: Bytes -> Id, r: Reg, op: Op, r': Reg) {
    match op
    case Hear(b) => Heard(idOf, r, b, r', true) || Heard(idOf, r, b, r', false)
    case SetScript(script) => r' == SetLocal(idOf, r, script)
    case Reset => r' == r.(nodes := map[], byHandle := map[])
  }

  const EMPTY := Reg(map[], map[], 0, [])

  /** The registries of a run: each follows from the one before by its operation. */
  ghost predicate IsRun(idOf: Bytes -> Id, ops: seq<Op>, states: seq<Reg>) {
    && |states| == |ops| + 1 && states[0] == EMPTY
    && forall i :: 0 <= i < |ops| ==> Follows(idOf, ops, states, i)
  }

  ghost predicate Follows(idOf: Bytes -> Id, ops: seq<Op>, states: seq<Reg>, i: nat)
    requires i < |ops| < |states|
  {
    Step(idOf, states[i], ops[i], states[i + 1])
  }

  /** Every registry of every run is consistent. */
  lemma {:induction false} RunsStayOk(idOf: Bytes -> Id, ops: seq<Op>, states: seq<Reg>, i: nat)
    requires IsRun(idOf, ops, states) && i < |states|
    ensures RegOk(idOf, states[i])
  {
    if i > 0 {
      RunsStayOk(idOf, ops, states, i - 1);
      assert Follows(idOf, ops, states, i - 1);
      hide RegOk, Heard;
      match ops[i - 1]
      case Hear(b) =>
        HeardKeeps(idOf, states[i - 1], b, states[i], if Heard(idOf, states[i - 1], b, states[i], true) then true else false);
      case SetScript(script) => SetLocalKeeps(idOf, states[i - 1], script);
      case Reset => EmptyOk(idOf, states[i]);
    }
  }

  lemma EmptyOk(idOf: Bytes -> Id, r: Reg)
    requires r.nodes == map[]
    ensures RegOk(idOf, r)
  {
  }

  /** A heartbeat for the handle of a live node from another id is refused and changes nothing. */
  lemma LiveHandleIsKept(idOf: Bytes -> Id, r: Reg, b: Beat, r': Reg, ok: bool, holder: Id)
    requires RegOk(idOf, r) && Heard(idOf, r, b, r', ok)
    requires holder in r.nodes && b.norm == Some(r.nodes[holder].handle) && Live(r.nodes[holder], b.now)
    requires idOf(b.script) != holder
    ensures !ok && r' == r
  {
    assert NodeOk(idOf, r, holder);
  }

  /** A heartbeat touches no node but its own, the expired holder of its handle, and one evicted. */
  lemma OthersAreKept(idOf: Bytes -> Id, r: Reg, b: Beat, r': Reg, ok: bool, j: Id)
    requires RegOk(idOf, r) && Heard(idOf, r, b, r', ok) && j != idOf(b.script)
    ensures j in r'.nodes ==> j in r.nodes && r'.nodes[j] == r.nodes[j]
    ensures j in r.nodes && j !in r'.nodes ==>
      || (b.norm.Some? && b.norm.value in r.byHandle && r.byHandle[b.norm.value] == j && !Live(r.nodes[j], b.now))
      || (ok && |r.nodes| >= MAX_ACTIVE_NODES && j != r.localId)
  {
    hide Pow, NodeOk, Live;
    if Admissible(idOf, r, b) {
      var id, norm := idOf(b.script), b.norm.value;
      var e := Entered(Displaced(r, id, norm), id, norm, b);
      assert |e.nodes| <= |r.nodes| + 1 by { EnteredSize(r, id, norm, b); }
    }
  }

  lemma EnteredSize(r: Reg, id: Id, norm: Handle, b: Beat)
    ensures |Entered(Displaced(r, id, norm), id, norm, b).nodes| <= |r.nodes| + 1
  {
    var d := Displaced(r, id, norm);
    Smaller(d.nodes.Keys, r.nodes.Keys);
    assert |d.nodes| == |d.nodes.Keys| && |r.nodes| == |r.nodes.Keys|;
    var e := Entered(d, id, norm, b);
    assert e.nodes.Keys == d.nodes.Keys + {id};
    assert |e.nodes| == |e.nodes.Keys|;
  }

  lemma Smaller(a: set<Id>, b: set<Id>)
    requires a <= b
    ensures |a| <= |b|
  {
    assert b == a + (b - a);
  }

  // ----- The index by handle can be stale

  /**
   * After the local script changes, the handle of the old local node stays in the index.  When that
   * id comes back under another handle, its old handle is refused to everybody else while it lives,
   * although no node has it.
   */
  lemma StaleHandleBlocks(idOf: Bytes -> Id, a: Bytes, c: Bytes, h1: Handle, h2: Handle) returns (ops: seq<Op>, states: seq<Reg>)
    requires 0 < |a| <= MAX_HEARTBEAT_SCRIPT && 0 < |c| <= MAX_HEARTBEAT_SCRIPT && h1 != h2
    requires idOf(a) != 0 && idOf(c) != 0 && idOf(a) != idOf(c)
    ensures IsRun(idOf, ops, states) && |states| == 6
    ensures ops[4] == Hear(Beat(c, 2, Some(h1), 0, true, [], false)) && states[5] == states[4]
    ensures forall id :: id in states[4].nodes ==> states[4].nodes[id].handle == h2
  {
    hide Pow;
    var i := idOf(a);
    ops := [SetScript(a), Hear(Beat(a, 0, Some(h1), 0, true, [], false)), SetScript(c),
            Hear(Beat(a, 1, Some(h2), 0, true, [], false)), Hear(Beat(c, 2, Some(h1), 0, true, [], false))];
    var s1, s3 := Reg(map[], map[], i, a), Reg(map[], map[h1 := i], idOf(c), c);
    var s2 := Reg(map[i := Node(i, a, 0, 0, h1, 0)], map[h1 := i], i, a);
    var s4 := Reg(map[i := Node(i, a, 1, 1, h2, 0)], map[h1 := i, h2 := i], idOf(c), c);
    states := [EMPTY, s1, s2, s3, s4, s4];
    assert Step(idOf, EMPTY, ops[0], s1);
    Accepted(idOf, s1, ops[1].beat, s2);
    assert Step(idOf, s2, ops[2], s3) by { assert s2.nodes - {i} == map[]; }
    Accepted(idOf, s3, ops[3].beat, s4);
    assert Step(idOf, s4, ops[4], s4) by { assert HandleTaken(s4, idOf(c), h1, 2); }
    hide Step;
    assert Follows(idOf, ops, states, 0) && Follows(idOf, ops, states, 1) && Follows(idOf, ops, states, 2);
    assert Follows(idOf, ops, states, 3) && Follows(idOf, ops, states, 4);
  }

  /** Handles are refused only where another live node has them. */
  ghost predicate RightRefusals(r: Reg) {
    forall id, norm, now :: HandleTaken(r, id, norm, now) ==> HeldByAnother(r, id, norm, now)
  }

  ghost predicate HeldByAnother(r: Reg, id: Id, norm: Handle, now: int) {
    exists j :: j in r.nodes && j != id && r.nodes[j].handle == norm && Live(r.nodes[j], now)
  }

  /** A handle in the index that names a node is that node's; others name nobody. */
  ghost predicate Harmless(r: Reg) {
    forall h :: h in r.byHandle && r.byHandle[h] in r.nodes ==> Names(r, h)
  }

  predicate Names(r: Reg, h: Handle)
    requires h in r.byHandle
  {
    r.byHandle[h] in r.nodes && r.nodes[r.byHandle[h]].handle == h
  }

  /** With a harmless index, a handle is taken if and only if another live node has it. */
  lemma TakenIff(idOf: Bytes -> Id, r: Reg, id: Id, norm: Handle, now: int)
    requires RegOk(idOf, r) && Harmless(r)
    ensures HandleTaken(r, id, norm, now) <==> HeldByAnother(r, id, norm, now)
  {
    hide Pow;
    if HandleTaken(r, id, norm, now) {
      assert Names(r, norm);
    }
    forall j | j in r.nodes && r.nodes[j].handle == norm ensures norm in r.byHandle && r.byHandle[norm] == j {
      assert NodeOk(idOf, r, j);
    }
  }

  /** Refusals are right if and only if the index is harmless. */
  lemma RefusalsIff(idOf: Bytes -> Id, r: Reg)
    requires RegOk(idOf, r)
    ensures RightRefusals(r) <==> Harmless(r)
  {
    hide Pow, RegOk;
    if Harmless(r) {
      forall id, norm, now | HandleTaken(r, id, norm, now) ensures HeldByAnother(r, id, norm, now) {
        TakenIff(idOf, r, id, norm, now);
      }
    }
    if RightRefusals(r) {
      forall h | h in r.byHandle && r.byHandle[h] in r.nodes ensures Names(r, h) {
        WrongRefusal(idOf, r, h);
      }
    }
  }

  /** An entry that names a node under another handle refuses that handle wrongly while the node lives. */
  lemma WrongRefusal(idOf: Bytes -> Id, r: Reg, h: Handle)
    requires RegOk(idOf, r) && RightRefusals(r) && h in r.byHandle && r.byHandle[h] in r.nodes
    ensures Names(r, h)
  {
    var holder := r.byHandle[h];
    var now, other := r.nodes[holder].lastSeen, AnotherId(holder);
    hide Pow, AnotherId;
    assert HandleTaken(r, other, h, now);
    var j :| j in r.nodes && j != other && r.nodes[j].handle == h && Live(r.nodes[j], now);
    assert NodeOk(idOf, r, j);
  }

  function AnotherId(id: Id): (other: Id)
    ensures other != id
  {
    assert Pow(256, ID_SIZE) == 256 * Pow(256, ID_SIZE - 1);
    if id == 0 then 1 else 0
  }

  lemma SetLocalHarmless(idOf: Bytes -> Id, r: Reg, script: Bytes)
    requires Harmless(r)
    ensures Harmless(SetLocal(idOf, r, script))
  {
    hide Pow;
    var s := SetLocal(idOf, r, script);
    forall h | h in s.byHandle && s.byHandle[h] in s.nodes ensures Names(s, h) {
      assert Names(r, h);
    }
  }

  /** An unknown id is accepted under a handle while the index still names it for another. */
  ghost predicate ComesBack(idOf: Bytes -> Id, r: Reg, b: Beat) {
    && Admissible(idOf, r, b) && !HandleTaken(r, idOf(b.script), b.norm.value, b.now)
    && idOf(b.script) !in r.nodes && exists h :: h != b.norm.value && h in r.byHandle && r.byHandle[h] == idOf(b.script)
  }

  /** A heartbeat keeps the index harmless unless its node comes back and stays. */
  lemma HeardHarmlessIff(idOf: Bytes -> Id, r: Reg, b: Beat, r': Reg, ok: bool)
    requires RegOk(idOf, r) && Harmless(r) && Heard(idOf, r, b, r', ok)
    ensures Harmless(r') <==> !(ComesBack(idOf, r, b) && idOf(b.script) in r'.nodes)
  {
    if Admissible(idOf, r, b) && !HandleTaken(r, idOf(b.script), b.norm.value, b.now) {
      hide Pow, RegOk, Harmless, Displaced, Entered, Evicts;
      var id, norm := idOf(b.script), b.norm.value;
      DisplacedHarmless(r, id, norm);
      DisplacedKeeps(idOf, r, id, norm);
      SameEntries(r, id, norm);
      var d := Displaced(r, id, norm);
      var e := Entered(d, id, norm, b);
      if ok {
        EnteredHarmless(d, id, norm, b);
        EnteredKeeps(idOf, d, id, norm, b);
        if !Back(d, id, norm) {
          EvictsHarmless(e, r');
        } else {
          StaysHarmful(idOf, d, id, norm, b, r');
        }
      }
    }
  }

  /** The index names an unknown id for a handle other than `norm`. */
  ghost predicate Back(r: Reg, id: Id, norm: Handle) {
    id !in r.nodes && exists h :: h != norm && h in r.byHandle && r.byHandle[h] == id
  }

  lemma DisplacedHarmless(r: Reg, id: Id, norm: Handle)
    requires Harmless(r)
    ensures Harmless(Displaced(r, id, norm))
  {
    hide Pow;
    var d := Displaced(r, id, norm);
    forall h | h in d.byHandle && d.byHandle[h] in d.nodes ensures Names(d, h) {
      assert Names(r, h);
    }
  }

  lemma SameEntries(r: Reg, id: Id, norm: Handle)
    ensures Back(Displaced(r, id, norm), id, norm) <==> Back(r, id, norm)
    ensures id in Displaced(r, id, norm).nodes <==> id in r.nodes
  {
    hide Pow;
    var d := Displaced(r, id, norm);
    forall h | h != norm ensures h in d.byHandle <==> h in r.byHandle {}
  }

  lemma EnteredHarmless(r: Reg, id: Id, norm: Handle, b: Beat)
    requires Harmless(r)
    ensures !Back(r, id, norm) ==> Harmless(Entered(r, id, norm, b))
  {
    hide Pow;
    var e := Entered(r, id, norm, b);
    if !Back(r, id, norm) {
      forall h | h in e.byHandle && e.byHandle[h] in e.nodes ensures Names(e, h) {
        if h != norm {
          assert h in r.byHandle && r.byHandle[h] == e.byHandle[h];
          if r.byHandle[h] in r.nodes {
            assert Names(r, h);
          }
        }
      }
    }
  }

  lemma EvictsHarmless(r: Reg, r': Reg)
    requires Harmless(r) && Evicts(r, r')
    ensures Harmless(r')
  {
    hide Pow, IsOldest;
    forall h | h in r'.byHandle && r'.byHandle[h] in r'.nodes ensures Names(r', h) {
      assert Names(r, h);
    }
  }

  /** The index is harmful as long as the node that came back is there, and harmless if it was evicted at once. */
  lemma StaysHarmful(idOf: Bytes -> Id, r: Reg, id: Id, norm: Handle, b: Beat, r': Reg)
    requires RegOk(idOf, Entered(r, id, norm, b)) && Harmless(r) && Back(r, id, norm) && Evicts(Entered(r, id, norm, b), r')
    ensures Harmless(r') <==> id !in r'.nodes
  {
    hide Pow, Older;
    var e := Entered(r, id, norm, b);
    var h :| h != norm && h in r.byHandle && r.byHandle[h] == id;
    if id in r'.nodes {
      assert h in e.byHandle && e.byHandle[h] == id && e.nodes[id].handle == norm;
      forall j | j in e.nodes && j != id ensures e.nodes[j].handle != h {
        assert NodeOk(idOf, e, j);
      }
      assert h in r'.byHandle && !Names(r', h);
    } else {
      forall g | g in r'.byHandle && r'.byHandle[g] in r'.nodes ensures Names(r', g) {
        assert g in r.byHandle && r.byHandle[g] == r'.byHandle[g] != id;
        assert Names(r, g);
      }
    }
  }

  /** No heartbeat brings back a node the index still names for another handle. */
  ghost predicate NoneBack(idOf: Bytes -> Id, r: Reg, op: Op, r': Reg) {
    op.Hear? ==> !(ComesBack(idOf, r, op.beat) && idOf(op.beat.script) in r'.nodes)
  }

  lemma StepHarmlessIff(idOf: Bytes -> Id, r: Reg, op: Op, r': Reg)
    requires RegOk(idOf, r) && Harmless(r) && Step(idOf, r, op, r')
    ensures Harmless(r') <==> NoneBack(idOf, r, op, r')
  {
    hide RegOk, Heard, SetLocal, ComesBack;
    match op
    case Hear(b) =>
      hide Harmless;
      HeardHarmlessIff(idOf, r, b, r', if Heard(idOf, r, b, r', true) then true else false);
    case SetScript(script) => SetLocalHarmless(idOf, r, script);
    case Reset =>
  }

  /**
   * In every run handles are refused only where another live node has them, in all states, if and only if
   * no heartbeat brings back, to stay, a node the index still names for another handle.
   */
  lemma {:induction false} RunsRefuseRightlyIff(idOf: Bytes -> Id, ops: seq<Op>, states: seq<Reg>, i: nat)
    requires IsRun(idOf, ops, states) && i < |states|
    ensures (forall j :: 0 <= j <= i ==> RightRefusals(states[j])) <==>
            forall j :: 0 <= j < i ==> NoneBack(idOf, states[j], ops[j], states[j + 1])
  {
    hide RegOk, Step, NoneBack, RightRefusals;
    RunsStayOk(idOf, ops, states, i);
    RefusalsIff(idOf, states[i]);
    if i == 0 {
      assert Harmless(states[0]);
    } else {
      hide Harmless;
      RunsRefuseRightlyIff(idOf, ops, states, i - 1);
      RunsStayOk(idOf, ops, states, i - 1);
      RefusalsIff(idOf, states[i - 1]);
      assert Follows(idOf, ops, states, i - 1);
      if Harmless(states[i - 1]) {
        StepHarmlessIff(idOf, states[i - 1], ops[i - 1], states[i]);
      }
    }
  }

  /** Every handle in the index is that of the node it names. */
  ghost predicate IndexExact(r: Reg) {
    forall h :: h in r.byHandle ==> Names(r, h)
  }

  lemma HeardKeepsExact(idOf: Bytes -> Id, r: Reg, b: Beat, r': Reg, ok: bool)
    requires RegOk(idOf, r) && IndexExact(r) && Heard(idOf, r, b, r', ok)
    ensures IndexExact(r')
  {
    if Admissible(idOf, r, b) {
      hide RegOk, IndexExact, Displaced, Entered, Evicts;
      var id, norm := idOf(b.script), b.norm.value;
      DisplacedKeeps(idOf, r, id, norm);
      var d := Displaced(r, id, norm);
      DisplacedExact(r, id, norm);
      EnteredExact(idOf, d, id, norm, b);
      EnteredKeeps(idOf, d, id, norm, b);
      if ok {
        EvictsExact(idOf, Entered(d, id, norm, b), r');
      }
    }
  }

  lemma DisplacedExact(r: Reg, id: Id, norm: Handle)
    requires IndexExact(r)
    ensures IndexExact(Displaced(r, id, norm))
  {
    hide Pow;
    var d := Displaced(r, id, norm);
    forall h | h in d.byHandle ensures Names(d, h) {
      assert Names(r, h);
      if norm in r.byHandle {
        assert Names(r, norm);
      }
    }
  }

  lemma EnteredExact(idOf: Bytes -> Id, r: Reg, id: Id, norm: Handle, b: Beat)
    requires RegOk(idOf, r) && IndexExact(r) && forall j :: j in r.nodes && j != id ==> r.nodes[j].handle != norm
    ensures IndexExact(Entered(r, id, norm, b))
  {
    hide Pow, RegOk;
    var e := Entered(r, id, norm, b);
    forall h | h in e.byHandle ensures Names(e, h) {
      if h != norm {
        assert Names(r, h);
      }
    }
  }

  lemma EvictsExact(idOf: Bytes -> Id, r: Reg, r': Reg)
    requires RegOk(idOf, r) && IndexExact(r) && Evicts(r, r')
    ensures IndexExact(r')
  {
    hide Pow, RegOk, IsOldest;
    forall h | h in r'.byHandle ensures Names(r', h) {
      assert Names(r, h);
    }
  }

  /** The change of script that leaves no handle behind: no old local node, or the same. */
  predicate LeavesNone(idOf: Bytes -> Id, r: Reg, script: Bytes) {
    script == [] || idOf(script) == r.localId || r.localId == 0 || r.localId !in r.nodes
  }

  lemma SetLocalExactIff(idOf: Bytes -> Id, r: Reg, script: Bytes)
    requires RegOk(idOf, r) && IndexExact(r)
    ensures IndexExact(SetLocal(idOf, r, script)) <==> LeavesNone(idOf, r, script)
  {
    hide Pow;
    var s := SetLocal(idOf, r, script);
    if LeavesNone(idOf, r, script) {
      forall h | h in s.byHandle ensures Names(s, h) {
        assert Names(r, h);
      }
    } else {
      assert NodeOk(idOf, r, r.localId);
      assert !Names(s, r.nodes[r.localId].handle);
    }
  }

  /** An operation that leaves no handle behind. */
  predicate Clean(idOf: Bytes -> Id, r: Reg, op: Op) {
    op.SetScript? ==> LeavesNone(idOf, r, op.script)
  }

  lemma StepExactIff(idOf: Bytes -> Id, r: Reg, op: Op, r': Reg)
    requires RegOk(idOf, r) && IndexExact(r) && Step(idOf, r, op, r')
    ensures IndexExact(r') <==> Clean(idOf, r, op)
  {
    hide RegOk, Heard, SetLocal;
    match op
    case Hear(b) =>
      hide IndexExact;
      HeardKeepsExact(idOf, r, b, r', if Heard(idOf, r, b, r', true) then true else false);
    case SetScript(script) => SetLocalExactIff(idOf, r, script);
    case Reset =>
  }

  /** In every run the index stays exact if and only if no change of the local script removes a node of the registry. */
  lemma {:induction false} RunsStayExactIff(idOf: Bytes -> Id, ops: seq<Op>, states: seq<Reg>, i: nat)
    requires IsRun(idOf, ops, states) && i < |states|
    ensures (forall j :: 0 <= j <= i ==> IndexExact(states[j])) <==> forall j :: 0 <= j < i ==> Clean(idOf, states[j], ops[j])
  {
    hide RegOk, Step, Clean;
    if i == 0 {
      assert IndexExact(states[0]);
    } else {
      hide IndexExact;
      RunsStayExactIff(idOf, ops, states, i - 1);
      RunsStayOk(idOf, ops, states, i - 1);
      assert Follows(idOf, ops, states, i - 1);
      if IndexExact(states[i - 1]) {
        StepExactIff(idOf, states[i - 1], ops[i - 1], states[i]);
      }
    }
  }

  lemma Accepted(idOf: Bytes -> Id, r: Reg, b: Beat, e: Reg)
    requires Admissible(idOf, r, b) && r.nodes == map[] && b.norm.value !in r.byHandle
    requires var id := idOf(b.script); e == r.(nodes := map[id := Node(id, b.script, b.now, b.now, b.norm.value, b.userId)],
                                              byHandle := r.byHandle[b.norm.value := id])
    ensures Step(idOf, r, Hear(b), e)
  {
    hide Pow;
    assert |e.nodes| == 1;
    var id := idOf(b.script);
    assert Entered(Displaced(r, id, b.norm.value), id, b.norm.value, b) == e;
  }

  // ----- Active sets

  predicate IsMin(s: set<Id>, m: Id) {
    m in s && forall x :: x in s ==> m <= x
  }

  lemma {:induction false} MinExists(s: set<Id>)
    requires s != {}
    ensures exists m :: IsMin(s, m)
  {
    hide Pow;
    var m :| m in s;
    if s == {m} {
      assert IsMin(s, m);
    } else {
      MinExists(s - {m});
      var k :| IsMin(s - {m}, k);
      var l := if k < m then k else m;
      forall x | x in s ensures l <= x {
        assert x == m || x in s - {m};
      }
      assert IsMin(s, l);
    }
  }

  /** The ids of a set in the order of an ordered map. */
  function SortedIds(s: set<Id>): (ids: seq<Id>)
    ensures |ids| == |s|
  {
    hide Pow;
    if s == {} then []
    else
      MinExists(s);
      var m :| IsMin(s, m);
      [m] + SortedIds(s - {m})
  }

  /** Putting a smaller id in front keeps a list strictly sorted. */
  lemma SortedCons(m: Id, ids: seq<Id>)
    requires StrictlySorted(ids) && forall i :: 0 <= i < |ids| ==> m < ids[i]
    ensures StrictlySorted([m] + ids)
  {
  }

  lemma {:induction false} SortedIdsOf(s: set<Id>)
    ensures StrictlySorted(SortedIds(s)) && forall x :: x in SortedIds(s) <==> x in s
  {
    hide Pow;
    if s != {} {
      var ids := SortedIds(s);
      MinExists(s);
      var m :| IsMin(s, m) && ids == [m] + SortedIds(s - {m});
      hide SortedIds;
      var rest := SortedIds(s - {m});
      SortedIdsOf(s - {m});
      forall i | 0 <= i < |rest| ensures m < rest[i] {
        assert rest[i] in rest;
      }
      SortedCons(m, rest);
      forall x ensures x in ids <==> x in s {
        assert x in ids <==> x == m || x in rest;
        assert x in s <==> x == m || x in s - {m};
      }
    }
  }

  function Filter(ids: seq<Id>, keep: Id -> bool): (r: seq<Id>) {
    if ids == [] then []
    else if keep(ids[0]) then [ids[0]] + Filter(ids[1..], keep) else Filter(ids[1..], keep)
  }

  lemma {:induction false} Filtered(ids: seq<Id>, keep: Id -> bool)
    requires StrictlySorted(ids)
    ensures StrictlySorted(Filter(ids, keep)) && forall x :: x in Filter(ids, keep) <==> x in ids && keep(x)
  {
    hide Pow;
    if ids != [] {
      var more := Filter(ids[1..], keep);
      Filtered(ids[1..], keep);
      assert Filter(ids, keep) == if keep(ids[0]) then [ids[0]] + more else more;
      hide Filter;
      forall i | 0 <= i < |more| ensures ids[0] < more[i] {
        assert more[i] in more;
        assert more[i] in ids[1..];
      }
      SortedCons(ids[0], more);
      forall x ensures x in Filter(ids, keep) <==> x in ids && keep(x) {
        assert x in ids <==> x == ids[0] || x in ids[1..];
        assert x in [ids[0]] + more <==> x == ids[0] || x in more;
      }
    }
  }

  /** In the hat of a slot: joined before it opened and not dead by then. */
  predicate Frozen(n: Node, slotStart: int) {
    n.joined < slotStart && !(n.lastSeen < slotStart && slotStart - n.lastSeen > HEARTBEAT_TTL_SECONDS)
  }

  function FrozenIds(nodes: map<Id, Node>, slot: int): seq<Id> {
    Filter(SortedIds(nodes.Keys), id => id in nodes && Frozen(nodes[id], slot * LotteryTime.SLOT_SECONDS))
  }

  function LiveIds(nodes: map<Id, Node>, now: int): seq<Id> {
    Filter(SortedIds(nodes.Keys), id => id in nodes && Live(nodes[id], now))
  }

  /** Those frozen when the slot opened, or, with none, those alive now. */
  function ActiveForSlot(nodes: map<Id, Node>, slot: int, now: int): seq<Id> {
    if FrozenIds(nodes, slot) != [] then FrozenIds(nodes, slot) else LiveIds(nodes, now)
  }

  lemma FrozenIdsOf(nodes: map<Id, Node>, slot: int)
    ensures StrictlySorted(FrozenIds(nodes, slot))
    ensures forall x :: x in FrozenIds(nodes, slot) <==> x in nodes && Frozen(nodes[x], slot * LotteryTime.SLOT_SECONDS)
  {
    hide Pow, SortedIds, Filter;
    SortedIdsOf(nodes.Keys);
    Filtered(SortedIds(nodes.Keys), id => id in nodes && Frozen(nodes[id], slot * LotteryTime.SLOT_SECONDS));
  }

  lemma LiveIdsOf(nodes: map<Id, Node>, now: int)
    ensures StrictlySorted(LiveIds(nodes, now))
    ensures forall x :: x in LiveIds(nodes, now) <==> x in nodes && Live(nodes[x], now)
  {
    hide Pow, SortedIds, Filter;
    SortedIdsOf(nodes.Keys);
    Filtered(SortedIds(nodes.Keys), id => id in nodes && Live(nodes[id], now));
  }

  /** The active set is strictly sorted, so it survives its commitment when it has at most 1024 ids. */
  lemma ActiveSet(nodes: map<Id, Node>, slot: int, now: int)
    ensures var ids := ActiveForSlot(nodes, slot, now);
      && StrictlySorted(ids)
      && (forall x :: x in ids ==> x in nodes)
      && (|ids| <= MAX_COMMITTED ==> Commits(ReturnScript(CommitData(ids)), ids))
  {
    hide Pow, FrozenIds, LiveIds, StrictlySorted, Commits;
    FrozenIdsOf(nodes, slot);
    LiveIdsOf(nodes, now);
    var ids := ActiveForSlot(nodes, slot, now);
    if |ids| <= MAX_COMMITTED {
      CommitRoundTrip(ids);
    }
  }

  /** Displacing another node does not touch the one that sent the heartbeat. */
  lemma SameOwner(r: Reg, id: Id, norm: Handle, now: int)
    ensures HandleChanges(Displaced(r, id, norm), id, norm, now) == HandleChanges(r, id, norm, now)
  {
  }

  // ----- The registry object

  class Registry {
    var nodes: map<Id, Node>
    var byHandle: map<Handle, Id>
    var localId: Id
    var localScript: Bytes

    constructor ()
      ensures State() == EMPTY
    {
      nodes, byHandle, localId, localScript := map[], map[], 0, [];
    }

    function State(): Reg
      reads this
    {
      Reg(nodes, byHandle, localId, localScript)
    }

    method SetLocalScript(idOf: Bytes -> Id, script: Bytes)
      modifies this
      ensures State() == SetLocal(idOf, old(State()), script)
    {
      if script == [] {
        return;
      }
      var id := idOf(script);
      if localId != id && localId != 0 {
        nodes := nodes - {localId};
      }
      localScript := script;
      localId := id;
    }

    method ResetAll()
      modifies this
      ensures State() == old(State()).(nodes := map[], byHandle := map[])
    {
      nodes, byHandle := map[], map[];
    }

    /** Makes room for a handle held by an expired node; refused while the holder lives. */
    method Displace(id: Id, norm: Handle, now: int) returns (free: bool)
      modifies this
      ensures free == !HandleTaken(old(State()), id, norm, now)
      ensures State() == if free then Displaced(old(State()), id, norm) else old(State())
    {
      hide Pow;
      if norm in byHandle && byHandle[norm] != id {
        var existing := byHandle[norm];
        if existing in nodes && Live(nodes[existing], now) {
          return false;
        }
        nodes := nodes - {existing};
        byHandle := byHandle - {norm};
      }
      free := true;
    }

    /** Enters the node unless it lives under another handle. */
    method Enter(id: Id, norm: Handle, b: Beat) returns (ok: bool)
      modifies this
      ensures ok == !HandleChanges(old(State()), id, norm, b.now)
      ensures State() == if ok then Entered(old(State()), id, norm, b) else old(State())
    {
      hide Pow;
      var joined := b.now;
      if id in nodes && nodes[id].handle != norm {
        if Live(nodes[id], b.now) {
          return false;
        }
        byHandle := byHandle - {nodes[id].handle};
      } else if id in nodes {
        joined := nodes[id].joined;
      }
      nodes := nodes[id := Node(id, b.script, b.now, joined, norm, b.userId)];
      byHandle := byHandle[norm := id];
      ok := true;
    }

    method Heartbeat(idOf: Bytes -> Id, b: Beat) returns (ok: bool)
      modifies this
      ensures Heard(idOf, old(State()), b, State(), ok)
    {
      hide Pow, Evicts, Displaced, Entered, HandleTaken, HandleChanges;
      if !Admissible(idOf, State(), b) {
        return false;
      }
      var id, norm := idOf(b.script), b.norm.value;
      SameOwner(State(), id, norm, b.now);
      ok := Displace(id, norm, b.now);
      if ok {
        ok := Enter(id, norm, b);
        if ok {
          Evict();
        }
      }
    }

    method Evict()
      modifies this
      ensures Evicts(old(State()), State())
    {
      if |nodes| > MAX_ACTIVE_NODES {
        var oldest := FindOldest();
        if oldest != localId {
          byHandle := byHandle - {nodes[oldest].handle};
          nodes := nodes - {oldest};
        }
      }
    }

    method FindOldest() returns (oldest: Id)
      requires nodes != map[]
      ensures IsOldest(nodes, oldest)
    {
      hide Pow, SortedIds;
      var ids := SortedIds(nodes.Keys);
      SortedIdsOf(nodes.Keys);
      oldest := ids[0];
      var i := 1;
      while i < |ids|
        invariant 1 <= i <= |ids| && oldest in nodes && (i < |ids| ==> oldest < ids[i])
        invariant forall j :: 0 <= j < i ==> Older(nodes, oldest, ids[j])
      {
        if nodes[ids[i]].lastSeen < nodes[oldest].lastSeen {
          oldest := ids[i];
        }
        i := i + 1;
      }
    }

    method ActiveIdsForSlot(slot: int, now: int) returns (ids: seq<Id>)
      ensures ids == ActiveForSlot(nodes, slot, now)
    {
      hide Pow, SortedIds, Filter;
      var ns := nodes;
      var all := SortedIds(ns.Keys);
      ids := Collect(all, id => id in ns && Frozen(ns[id], slot * LotteryTime.SLOT_SECONDS));
      if ids == [] {
        ids := Collect(all, id => id in ns && Live(ns[id], now));
      }
    }
  }

  method Collect(all: seq<Id>, keep: Id -> bool) returns (ids: seq<Id>)
    ensures ids == Filter(all, keep)
  {
    ids := [];
    var i := 0;
    assert all[0..] == all;
    while i < |all|
      invariant 0 <= i <= |all| && ids + Filter(all[i..], keep) == Filter(all, keep)
    {
      assert all[i..][1..] == all[i + 1..];
      if keep(all[i]) {
        assert ids + ([all[i]] + Filter(all[i + 1..], keep)) == (ids + [all[i]]) + Filter(all[i + 1..], keep);
        ids := ids + [all[i]];
      }
      i := i + 1;
    }
    assert ids + [] == ids;
  }
}
