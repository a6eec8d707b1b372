/**
 * The lottery's coinbase commitments (src/lottery.cpp): the active set (XHB1), the attestation
 * stamps (XVA1) and the seed signature (XSD1), each one push after OP_RETURN (src/script/script.h).
 */
module LotteryCodec {
  import opened Options
  import opened Powers
  import opened ByteStrings

  // ----- Scripts

  const OP_PUSHDATA1: Byte := 0x4c
  const OP_PUSHDATA2: Byte := 0x4d
  const OP_PUSHDATA4: Byte := 0x4e
  const OP_RETURN: Byte := 0x6a
  const OP_RVN_ASSET: Byte := 0xc0

  /** A data push in its shortest form. */
  function Push(data: Bytes): Bytes {
    if |data| < OP_PUSHDATA1 then [|data|] + data
    else if |data| <= 0xff then [OP_PUSHDATA1] + LittleEndian(|data|, 1) + data
    else if |data| <= 0xffff then [OP_PUSHDATA2] + LittleEndian(|data|, 2) + data
    else [OP_PUSHDATA4] + LittleEndian(|data|, 4) + data
  }

  /** The bytes of the size field that follows the opcode. */
  function SizeWidth(opcode: Byte): nat {
    if opcode == OP_PUSHDATA1 then 1 else if opcode == OP_PUSHDATA2 then 2 else if opcode == OP_PUSHDATA4 then 4 else 0
  }

  /** The operand of the first operation of a script, if it can be read. */
  function GetOp(script: Bytes): Option<Bytes> {
    if script == [] then None
    else
      var opcode, rest := script[0], script[1..];
      if opcode <= OP_PUSHDATA4 then
        var w := SizeWidth(opcode);
        if |rest| < w then None
        else
          var size := if w == 0 then opcode else FromLittleEndian(rest[..w]);
          if |rest| - w < size then None else Some(rest[w..w + size])
      else if opcode == OP_RVN_ASSET then Some(rest)
      else Some([])
  }

  lemma SizedPush(opcode: Byte, w: nat, data: Bytes)
    requires OP_PUSHDATA1 <= opcode <= OP_PUSHDATA4 && w == SizeWidth(opcode) && |data| < Pow(256, w)
    ensures GetOp([opcode] + LittleEndian(|data|, w) + data) == Some(data)
  {
    hide LittleEndian, FromLittleEndian, Pow;
    LittleEndianRoundTrip(|data|, w);
    PushedParts(opcode, LittleEndian(|data|, w), data);
  }

  lemma PushedParts(opcode: Byte, size: Bytes, data: Bytes)
    ensures var s := [opcode] + size + data;
      && s[0] == opcode && s[1..] == size + data
      && (size + data)[..|size|] == size && (size + data)[|size|..|size| + |data|] == data
  {
  }

  /** Reading a push gives back what was pushed. */
  lemma PushRoundTrip(data: Bytes)
    requires |data| < 0x1_0000_0000
    ensures GetOp(Push(data)) == Some(data)
  {
    if |data| < OP_PUSHDATA1 {
      var s := [|data|] + data;
      assert s[1..] == data && data[0..0 + |data|] == data;
    } else if |data| <= 0xff {
      SizedPush(OP_PUSHDATA1, 1, data);
    } else if |data| <= 0xffff {
      SizedPush(OP_PUSHDATA2, 2, data);
    } else {
      SizedPush(OP_PUSHDATA4, 4, data);
    }
  }

  /** The data an OP_RETURN script carries. */
  function ReturnData(script: Bytes): Option<Bytes> {
    if script == [] || script[0] != OP_RETURN then None else GetOp(script[1..])
  }

  function ReturnScript(data: Bytes): Bytes {
    [OP_RETURN] + Push(data)
  }

  lemma ReturnRoundTrip(data: Bytes)
    requires |data| < 0x1_0000_0000
    ensures ReturnData(ReturnScript(data)) == Some(data)
  {
    PushRoundTrip(data);
    assert ReturnScript(data)[1..] == Push(data);
  }

  // ----- The active set

  const ID_SIZE := 20

  /** A 160-bit id; the order of ids is that of their bytes, highest first. */
  type Id = n: nat | n < Pow(256, ID_SIZE) witness 0

  const COMMIT_MAGIC: Bytes := [0x58, 0x48, 0x42, 0x31]
  const ATTEST_MAGIC: Bytes := [0x58, 0x56, 0x41, 0x31]
  const SEED_BLOCK_MAGIC: Bytes := [0x58, 0x53, 0x44, 0x31]
  const MAX_COMMITTED := 1024

  predicate StrictlySorted(ids: seq<Id>) {
    forall i, j :: 0 <= i < j < |ids| ==> ids[i] < ids[j]
  }

  /** Ids in order are their bytes in order, as the comparison of blobs has it. */
  lemma SortedAsBytes(ids: seq<Id>)
    ensures StrictlySorted(ids) <==>
            forall i, j :: 0 <= i < j < |ids| ==> Before(BigEndian(ids[i], ID_SIZE), BigEndian(ids[j], ID_SIZE))
  {
    hide Pow, BigEndian, Before;
    forall i, j | 0 <= i < j < |ids| ensures Before(BigEndian(ids[i], ID_SIZE), BigEndian(ids[j], ID_SIZE)) <==> ids[i] < ids[j] {
      OrderOfBytes(ids[i], ids[j], ID_SIZE);
    }
  }

  function IdBytes(ids: seq<Id>): (b: Bytes)
    ensures |b| == ID_SIZE * |ids|
  {
    if ids == [] then [] else BigEndian(ids[0], ID_SIZE) + IdBytes(ids[1..])
  }

  function DecodeIds(b: Bytes, n: nat): (ids: seq<Id>)
    requires |b| == ID_SIZE * n
    ensures |ids| == n
    decreases n
  {
    if n == 0 then [] else [FromBigEndian(b[..ID_SIZE])] + DecodeIds(b[ID_SIZE..], n - 1)
  }

  lemma {:induction false} DecodeIdBytes(ids: seq<Id>)
    ensures DecodeIds(IdBytes(ids), |ids|) == ids
  {
    if ids != [] {
      BigEndianRoundTrip(ids[0], ID_SIZE);
      DecodeIdBytes(ids[1..]);
      hide BigEndian, FromBigEndian;
      assert IdBytes(ids)[..ID_SIZE] == BigEndian(ids[0], ID_SIZE);
      assert IdBytes(ids)[ID_SIZE..] == IdBytes(ids[1..]);
    }
  }

  lemma {:induction false} IdBytesDecoded(b: Bytes, n: nat)
    requires |b| == ID_SIZE * n
    ensures IdBytes(DecodeIds(b, n)) == b
    decreases n
  {
    if n > 0 {
      BigEndianOnto(b[..ID_SIZE]);
      IdBytesDecoded(b[ID_SIZE..], n - 1);
      hide BigEndian, FromBigEndian;
      assert DecodeIds(b, n)[1..] == DecodeIds(b[ID_SIZE..], n - 1);
      assert b == b[..ID_SIZE] + b[ID_SIZE..];
    }
  }

  /** A magic number, a count of the entries and the entries. */
  function Framed(magic: Bytes, n: nat, body: Bytes): Bytes {
    magic + LittleEndian(n, 4) + body
  }

  lemma FramedParts(magic: Bytes, n: nat, body: Bytes)
    requires |magic| == 4 && n < 0x1_0000_0000
    ensures var d := Framed(magic, n, body);
      |d| == 8 + |body| && d[..4] == magic && FromLittleEndian(d[4..8]) == n && d[8..] == body
  {
    LittleEndianRoundTrip(n, 4);
    hide LittleEndian, FromLittleEndian;
    var d := Framed(magic, n, body);
    assert d[4..8] == LittleEndian(n, 4);
  }

  /** Any eight bytes or more are the frame of their own parts. */
  lemma FramedOnto(d: Bytes)
    requires |d| >= 8
    ensures d == Framed(d[..4], FromLittleEndian(d[4..8]), d[8..])
  {
    LittleEndianOnto(d[4..8]);
    hide LittleEndian, FromLittleEndian;
    assert d == d[..4] + d[4..8] + d[8..];
  }

  function CommitData(ids: seq<Id>): Bytes {
    Framed(COMMIT_MAGIC, |ids| % 0x1_0000_0000, IdBytes(ids))
  }

  /** A script that commits to an active set, as the validator reads it. */
  ghost predicate Commits(script: Bytes, ids: seq<Id>) {
    ReturnData(script) == Some(CommitData(ids)) && |ids| <= MAX_COMMITTED && StrictlySorted(ids)
  }

  /** The commitment of a strictly sorted set of at most 1024 ids reads back as that set. */
  lemma CommitRoundTrip(ids: seq<Id>)
    requires StrictlySorted(ids) && |ids| <= MAX_COMMITTED
    ensures Commits(ReturnScript(CommitData(ids)), ids)
  {
    ReturnRoundTrip(CommitData(ids));
  }

  /** The ids in a commitment's data, in whatever order. */
  function ReadCommit(data: Bytes): Option<seq<Id>> {
    if |data| < 8 || data[..4] != COMMIT_MAGIC then None
    else
      var n := FromLittleEndian(data[4..8]);
      if n > MAX_COMMITTED || |data| != 8 + n * ID_SIZE then None else Some(DecodeIds(data[8..], n))
  }

  lemma ReadCommitData(ids: seq<Id>)
    requires |ids| <= MAX_COMMITTED
    ensures ReadCommit(CommitData(ids)) == Some(ids)
  {
    hide LittleEndian, FromLittleEndian, IdBytes, DecodeIds, Framed;
    FramedParts(COMMIT_MAGIC, |ids|, IdBytes(ids));
    DecodeIdBytes(ids);
  }

  lemma CommitDataRead(data: Bytes)
    requires ReadCommit(data).Some?
    ensures |ReadCommit(data).value| <= MAX_COMMITTED && data == CommitData(ReadCommit(data).value)
  {
    hide LittleEndian, FromLittleEndian, IdBytes, DecodeIds, Framed;
    IdBytesDecoded(data[8..], FromLittleEndian(data[4..8]));
    FramedOnto(data);
  }

  /** A script commits to one set only. */
  lemma CommitsOnce(script: Bytes, a: seq<Id>, b: seq<Id>)
    requires Commits(script, a) && Commits(script, b)
    ensures a == b
  {
    ReadCommitData(a);
    ReadCommitData(b);
  }

  /** Exactly the strictly sorted sets of at most 1024 ids survive, although the registry holds more. */
  lemma CommitRoundTripIff(ids: seq<Id>)
    requires |CommitData(ids)| < 0x1_0000_0000
    ensures (exists read :: Commits(ReturnScript(CommitData(ids)), read)) <==> StrictlySorted(ids) && |ids| <= MAX_COMMITTED
  {
    var script := ReturnScript(CommitData(ids));
    ReturnRoundTrip(CommitData(ids));
    FramedParts(COMMIT_MAGIC, |ids|, IdBytes(ids));
    hide LittleEndian, FromLittleEndian, Framed, IdBytes, DecodeIds;
    if StrictlySorted(ids) && |ids| <= MAX_COMMITTED {
      assert Commits(script, ids);
    }
    forall read | Commits(script, read) ensures read == ids {
      ReadCommitData(read);
      assert |ids| <= MAX_COMMITTED;
      ReadCommitData(ids);
    }
  }

  method MakeActiveSetCommitment(sortedIds: seq<Id>) returns (script: Bytes)
    ensures script == ReturnScript(CommitData(sortedIds))
  {
    var data := COMMIT_MAGIC + LittleEndian(|sortedIds| % 0x1_0000_0000, 4);
    var head := data;
    var i := 0;
    assert data == head + [] && sortedIds[0..] == sortedIds;
    while i < |sortedIds|
      invariant 0 <= i <= |sortedIds|
      invariant data + IdBytes(sortedIds[i..]) == head + IdBytes(sortedIds)
    {
      assert sortedIds[i..][1..] == sortedIds[i + 1..];
      assert data + IdBytes(sortedIds[i..]) == data + BigEndian(sortedIds[i], ID_SIZE) + IdBytes(sortedIds[i + 1..]);
      data := data + BigEndian(sortedIds[i], ID_SIZE);
      i := i + 1;
    }
    assert sortedIds[|sortedIds|..] == [] && data + [] == data;
    script := [OP_RETURN] + Push(data);
  }

  /** Parsing succeeds exactly on the scripts that commit to a set, with that set. */
  method ParseActiveSetCommitment(script: Bytes) returns (r: Option<seq<Id>>)
    ensures r.Some? ==> Commits(script, r.value)
    ensures r.None? ==> forall ids :: !Commits(script, ids)
  {
    hide ReturnData, CommitData;
    r := None;
    var got := ReturnData(script);
    if got.Some? {
      var read := ReadData(got.value);
      forall ids | Commits(script, ids) ensures read == Some(ids) {
        ReadCommitData(ids);
      }
      if read.Some? {
        CommitDataRead(got.value);
        var sorted := CheckSorted(read.value);
        if sorted {
          r := read;
        }
      }
    }
  }

  method ReadData(data: Bytes) returns (r: Option<seq<Id>>)
    ensures r == ReadCommit(data)
  {
    if |data| < 8 || data[..4] != COMMIT_MAGIC {
      return None;
    }
    var n := FromLittleEndian(data[4..8]);
    if n > MAX_COMMITTED || |data| != 8 + n * ID_SIZE {
      return None;
    }
    var ids := ReadIds(data[8..], n);
    r := Some(ids);
  }

  method CheckSorted(ids: seq<Id>) returns (sorted: bool)
    ensures sorted <==> StrictlySorted(ids)
  {
    var i := 1;
    while i < |ids|
      invariant 1 <= i && forall a, b :: 0 <= a < b < i && b < |ids| ==> ids[a] < ids[b]
    {
      if ids[i - 1] >= ids[i] {
        return false;
      }
      i := i + 1;
    }
    sorted := true;
  }

  method ReadIds(body: Bytes, n: nat) returns (ids: seq<Id>)
    requires |body| == ID_SIZE * n
    ensures ids == DecodeIds(body, n)
  {
    ids := [];
    var i := 0;
    assert body[0..] == body;
    while i < n
      invariant 0 <= i <= n
      invariant ids + DecodeIds(body[ID_SIZE * i..], n - i) == DecodeIds(body, n)
    {
      var rest := body[ID_SIZE * i..];
      assert rest[ID_SIZE..] == body[ID_SIZE * (i + 1)..];
      assert ids + DecodeIds(rest, n - i) == (ids + [FromBigEndian(rest[..ID_SIZE])]) + DecodeIds(body[ID_SIZE * (i + 1)..], n - (i + 1));
      ids := ids + [FromBigEndian(rest[..ID_SIZE])];
      i := i + 1;
    }
    assert ids + [] == ids;
  }
}
