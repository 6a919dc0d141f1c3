/**
 The scratch file of merged entries: length-prefixed records, written and read in sequence.

 `Codec` is the record serializer (bincode); a `u64` length fits a 64-bit `usize`.
 */
module EntriesStore {
  import opened Wrappers
  import opened BlocklistTypes
  import opened Bytes

  datatype Codec = Codec(encode: MergedEntry -> seq<byte>, decode: seq<byte> -> Option<MergedEntry>)

  /** The serializer gives these entries back, and none of them is longer than its length prefix can say. */
  ghost predicate FaithfulOn(codec: Codec, entries: seq<MergedEntry>) {
    forall e | e in entries :: RoundTrips(codec, e)
  }

  predicate RoundTrips(codec: Codec, e: MergedEntry) {
    codec.decode(codec.encode(e)) == Some(e) && |codec.encode(e)| < Power256(8)
  }

  function Power256(k: nat): nat {
    if k == 0 then 1 else 256 * Power256(k - 1)
  }

  /** Little-endian bytes, least significant first. */
  function ToLe(n: nat, k: nat): (r: seq<byte>)
    ensures |r| == k
  {
    if k == 0 then [] else [(n % 256) as byte] + ToLe(n / 256, k - 1)
  }

  function FromLe(bytes: seq<byte>): nat {
    if bytes == [] then 0 else bytes[0] as nat + 256 * FromLe(bytes[1..])
  }

  lemma {:induction false} LeRoundTrip(n: nat, k: nat)
    requires n < Power256(k)
    ensures FromLe(ToLe(n, k)) == n
  {
    if k > 0 {
      LeRoundTrip(n / 256, k - 1);
      assert ToLe(n, k)[1..] == ToLe(n / 256, k - 1);
    }
  }

  /** The length prefix is little-endian. */
  lemma LittleEndian(b: seq<byte>)
    requires |b| == 8
    ensures FromLe(b) == b[0] as int + 0x100 * b[1] as int + 0x1_0000 * b[2] as int + 0x100_0000 * b[3] as int
                         + 0x1_0000_0000 * b[4] as int + 0x100_0000_0000 * b[5] as int
                         + 0x1_0000_0000_0000 * b[6] as int + 0x100_0000_0000_0000 * b[7] as int
  {
    FromLeAt(b, 0); FromLeAt(b, 1); FromLeAt(b, 2); FromLeAt(b, 3);
    FromLeAt(b, 4); FromLeAt(b, 5); FromLeAt(b, 6); FromLeAt(b, 7);
    assert b[0..] == b && b[8..] == [];
  }

  lemma FromLeAt(b: seq<byte>, i: nat)
    requires i < |b|
    ensures FromLe(b[i..]) == b[i] as nat + 256 * FromLe(b[i + 1..])
  {
    assert b[i..][1..] == b[i + 1..];
  }

  lemma {:induction false} ToFromLe(b: seq<byte>)
    ensures ToLe(FromLe(b), |b|) == b
  {
    if b != [] {
      ToFromLe(b[1..]);
      assert (b[0] as nat + 256 * FromLe(b[1..])) / 256 == FromLe(b[1..]);
    }
  }

  function IndexIn(entries: seq<MergedEntry>, e: MergedEntry): (i: nat)
    requires e in entries
    ensures i < |entries| && entries[i] == e
  {
    if entries[0] == e then 0 else 1 + IndexIn(entries[1..], e)
  }

  /** A serializer that numbers the entries of one corpus. */
  function Numbering(entries: seq<MergedEntry>): Codec {
    Codec(
      (e: MergedEntry) => if e in entries then ToLe(IndexIn(entries, e), 8) else [],
      (bytes: seq<byte>) => if FromLe(bytes) < |entries| then Some(entries[FromLe(bytes)]) else None)
  }

  /** What is asked of a serializer can be met, for every corpus a 64-bit machine can hold. */
  lemma EveryCorpusHasACodec(entries: seq<MergedEntry>)
    requires |entries| <= Power256(8)
    ensures FaithfulOn(Numbering(entries), entries)
  {
    var codec := Numbering(entries);
    assert Power256(8) > 8 by { PowerGrows(8); }
    forall e | e in entries ensures RoundTrips(codec, e) {
      LeRoundTrip(IndexIn(entries, e), 8);
    }
  }

  lemma {:induction false} PowerGrows(k: nat)
    ensures Power256(k) > k
  {
    if k > 0 { PowerGrows(k - 1); }
  }

  function Record(codec: Codec, e: MergedEntry): seq<byte> {
    ToLe(|codec.encode(e)|, 8) + codec.encode(e)
  }

  function Encoded(codec: Codec, entries: seq<MergedEntry>): seq<byte> {
    if entries == [] then [] else Record(codec, entries[0]) + Encoded(codec, entries[1..])
  }

  method Write(codec: Codec, entries: seq<MergedEntry>) returns (file: seq<byte>)
    ensures file == Encoded(codec, entries)
  {
    file := [];
    for i := 0 to |entries|
      invariant file + Encoded(codec, entries[i..]) == Encoded(codec, entries)
    {
      var bytes := codec.encode(entries[i]);
      ghost var before := file;
      file := file + ToLe(|bytes|, 8);
      file := file + bytes;
      assert entries[i..][0] == entries[i] && entries[i..][1..] == entries[i + 1..];
      ghost var rest := Encoded(codec, entries[i + 1..]);
      assert file + rest == before + (Record(codec, entries[i]) + rest);
    }
    assert file + [] == file;
  }

  datatype ReadError = TruncatedRecord | BadRecord

  /** What one `next` returns at `pos`, and where it leaves the cursor. */
  function ReadAt(codec: Codec, file: seq<byte>, pos: nat): (r: (Result<Option<MergedEntry>, ReadError>, nat))
    requires pos <= |file|
    ensures pos <= r.1 <= |file|
    ensures r.0.Ok? && r.0.value.Some? ==> r.1 >= pos + 8
  {
    if |file| - pos < 8 then (Ok(None), |file|)
    else
      var len := FromLe(file[pos..pos + 8]);
      if |file| - (pos + 8) < len then (Err(TruncatedRecord), |file|)
      else
        match codec.decode(file[pos + 8..pos + 8 + len])
        case None => (Err(BadRecord), pos + 8 + len)
        case Some(e) => (Ok(Some(e)), pos + 8 + len)
  }

  class EntryReader {
    const file: seq<byte>
    var pos: nat

    constructor (bytes: seq<byte>)
      ensures file == bytes && pos == 0
    {
      file := bytes;
      pos := 0;
    }

    method Next(codec: Codec) returns (r: Result<Option<MergedEntry>, ReadError>)
      requires pos <= |file|
      modifies this`pos
      ensures (r, pos) == ReadAt(codec, file, old(pos))
    {
      if |file| - pos < 8 {
        pos := |file|;
        return Ok(None);
      }
      var len := FromLe(file[pos..pos + 8]);
      pos := pos + 8;
      if |file| - pos < len {
        pos := |file|;
        return Err(TruncatedRecord);
      }
      var decoded := codec.decode(file[pos..pos + len]);
      pos := pos + len;
      match decoded {
        case None => return Err(BadRecord);
        case Some(e) => return Ok(Some(e));
      }
    }
  }

  /** A whole pass from `pos`: the entries delivered, and whether it ended at a clean end of file. */
  function ReadAll(codec: Codec, file: seq<byte>, pos: nat): (seq<MergedEntry>, bool)
    requires pos <= |file|
    decreases |file| - pos
  {
    var (r, next) := ReadAt(codec, file, pos);
    match r
    case Err(_) => ([], false)
    case Ok(None) => ([], true)
    case Ok(Some(e)) =>
      var (rest, clean) := ReadAll(codec, file, next);
      ([e] + rest, clean)
  }

  lemma ReadRecord(codec: Codec, e: MergedEntry, before: seq<byte>, after: seq<byte>)
    requires RoundTrips(codec, e)
    ensures var file := before + Record(codec, e) + after;
            ReadAt(codec, file, |before|) == (Ok(Some(e)), |before + Record(codec, e)|)
  {
    var bytes := codec.encode(e);
    var file := before + Record(codec, e) + after;
    var pos := |before|;
    LeRoundTrip(|bytes|, 8);
    assert file[pos..pos + 8] == ToLe(|bytes|, 8);
    assert file[pos + 8..pos + 8 + |bytes|] == bytes;
  }

  /** Reading back a written file gives the entries, in order, and a clean end. */
  lemma {:induction false} WriteThenRead(codec: Codec, entries: seq<MergedEntry>, before: seq<byte>)
    requires FaithfulOn(codec, entries)
    ensures ReadAll(codec, before + Encoded(codec, entries), |before|) == (entries, true)
  {
    var file := before + Encoded(codec, entries);
    if entries != [] {
      var rest := Encoded(codec, entries[1..]);
      ReadRecord(codec, entries[0], before, rest);
      var more := before + Record(codec, entries[0]);
      assert file == more + rest;
      WriteThenRead(codec, entries[1..], more);
      assert entries == [entries[0]] + entries[1..];
    }
  }

  /** Bodies, each behind its length. */
  function Framed(bodies: seq<seq<byte>>): seq<byte> {
    if bodies == [] then [] else ToLe(|bodies[0]|, 8) + bodies[0] + Framed(bodies[1..])
  }

  /** `bodies` decode to `entries`, in order. */
  predicate DecodeTo(codec: Codec, bodies: seq<seq<byte>>, entries: seq<MergedEntry>) {
    |bodies| == |entries| && forall i | 0 <= i < |bodies| :: codec.decode(bodies[i]) == Some(entries[i])
  }

  /** What keeps a pass from going on: less than a length, less than a body, or a body that does not decode. */
  predicate Stops(codec: Codec, rest: seq<byte>, clean: bool) {
    if |rest| < 8 then clean
    else
      var len := FromLe(rest[..8]);
      !clean && (|rest| - 8 < len || codec.decode(rest[8..8 + len]) == None)
  }

  /**
   Whatever bytes a pass reads: the entries delivered are those of the records there, one after the other,
   and it ends, cleanly or not, exactly where no record can be read.
   */
  lemma {:induction false} ReadAllMeans(codec: Codec, file: seq<byte>, pos: nat)
    returns (bodies: seq<seq<byte>>, rest: seq<byte>)
    requires pos <= |file|
    ensures file[pos..] == Framed(bodies) + rest
    ensures DecodeTo(codec, bodies, ReadAll(codec, file, pos).0)
    ensures Stops(codec, rest, ReadAll(codec, file, pos).1)
    decreases |file| - pos
  {
    var (r, next) := ReadAt(codec, file, pos);
    if r.Ok? && r.value.Some? {
      var len := FromLe(file[pos..pos + 8]);
      var body := file[pos + 8..next];
      var more;
      more, rest := ReadAllMeans(codec, file, next);
      bodies := [body] + more;
      ToFromLe(file[pos..pos + 8]);
      RecordAt(file, pos, next);
      FramedMore(body, more, rest);
    } else {
      bodies, rest := [], file[pos..];
      assert |rest| >= 8 ==> rest[..8] == file[pos..pos + 8];
      assert |rest| >= 8 && |rest| - 8 >= FromLe(rest[..8]) ==>
          rest[8..8 + FromLe(rest[..8])] == file[pos + 8..pos + 8 + FromLe(rest[..8])];
    }
  }

  lemma RecordAt<T>(file: seq<T>, pos: nat, next: nat)
    requires pos + 8 <= next <= |file|
    ensures file[pos..] == file[pos..pos + 8] + file[pos + 8..next] + file[next..]
  {}

  lemma FramedMore(body: seq<byte>, more: seq<seq<byte>>, rest: seq<byte>)
    ensures Framed([body] + more) + rest == ToLe(|body|, 8) + body + (Framed(more) + rest)
  {
    assert ([body] + more)[1..] == more;
  }

  /** Whole records that fit into the first `cut` bytes. */
  function WholeRecords(codec: Codec, entries: seq<MergedEntry>, cut: nat): (k: nat)
    ensures k <= |entries|
  {
    if entries == [] || cut < |Record(codec, entries[0])| then 0
    else 1 + WholeRecords(codec, entries[1..], cut - |Record(codec, entries[0])|)
  }

  /** Bytes of the cut record that survive. */
  function LeftOver(codec: Codec, entries: seq<MergedEntry>, cut: nat): nat {
    if entries == [] || cut < |Record(codec, entries[0])| then cut
    else LeftOver(codec, entries[1..], cut - |Record(codec, entries[0])|)
  }

  /**
   A file cut short never yields a wrong entry, only the whole records before the cut; and the pass
   looks complete exactly when fewer than eight bytes of the cut record remain.
   */
  lemma {:induction false} TruncationSeenIff(codec: Codec, entries: seq<MergedEntry>, before: seq<byte>, cut: nat)
    requires FaithfulOn(codec, entries) && cut < |Encoded(codec, entries)|
    ensures var file := before + Encoded(codec, entries)[..cut];
            var k := WholeRecords(codec, entries, cut);
            && k < |entries|
            && ReadAll(codec, file, |before|) == (entries[..k], LeftOver(codec, entries, cut) < 8)
  {
    var r, rest := Record(codec, entries[0]), Encoded(codec, entries[1..]);
    if cut < |r| {
      CutInFirst(r, rest, cut);
      CutRecord(codec, entries[0], before, cut);
    } else {
      var left := cut - |r|;
      CutAfterFirst(before, r, rest, cut);
      ReadRecord(codec, entries[0], before, rest[..left]);
      TruncationSeenIff(codec, entries[1..], before + r, left);
      TakeOneMore(entries, WholeRecords(codec, entries[1..], left));
    }
  }

  lemma CutInFirst<T>(r: seq<T>, rest: seq<T>, cut: nat)
    requires cut < |r|
    ensures (r + rest)[..cut] == r[..cut]
  {}

  lemma CutAfterFirst<T>(before: seq<T>, r: seq<T>, rest: seq<T>, cut: nat)
    requires |r| <= cut <= |r + rest|
    ensures before + (r + rest)[..cut] == before + r + rest[..cut - |r|]
  {}

  lemma TakeOneMore<T>(xs: seq<T>, k: nat)
    requires k < |xs|
    ensures xs[..k + 1] == [xs[0]] + xs[1..][..k]
  {}

  lemma CutRecord(codec: Codec, e: MergedEntry, before: seq<byte>, cut: nat)
    requires RoundTrips(codec, e) && cut < |Record(codec, e)|
    ensures ReadAll(codec, before + Record(codec, e)[..cut], |before|) == ([], cut < 8)
  {
    if cut >= 8 {
      var n := |codec.encode(e)|;
      LeRoundTrip(n, 8);
      CutAfterLength(before, ToLe(n, 8), codec.encode(e), cut);
    }
  }

  lemma CutAfterLength<T>(before: seq<T>, length: seq<T>, body: seq<T>, cut: nat)
    requires |length| <= cut <= |length| + |body|
    ensures var file := before + (length + body)[..cut];
            |file| == |before| + cut && file[|before|..|before| + |length|] == length
  {}
}
