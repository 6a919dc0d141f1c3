/**
 Reading the question out of a DNS query and refusing it, after sections 2.3.4, 4.1.1, 4.1.2 and 4.1.4
 of RFC 1035.  `utf8` decodes the octets of one label, or rejects them.
 */
module Dns {
  import opened Wrappers
  import opened Bytes
  import Names

  const HEADER_LEN := 12
  const MAX_LABEL_LEN := 63
  const MAX_NAME_WIRE_LEN := 255
  const RCODE_NXDOMAIN: byte := 3

  type Utf8 = seq<byte> -> Option<string>

  datatype DnsQuestion = DnsQuestion(id: nat, name: string, qtype: nat, qclass: nat)

  function U16(hi: byte, lo: byte): nat {
    hi as nat * 256 + lo as nat
  }

  // The bits of the first flags octet: QR, four of opcode, AA, TC, RD.

  predicate IsResponse(flags: byte) {
    flags >= 128
  }

  function Opcode(flags: byte): byte {
    flags / 8 % 16
  }

  function RecursionDesired(flags: byte): byte {
    flags % 2
  }

  function Lower(s: string): string {
    seq(|s|, i requires 0 <= i < |s| => if 'A' <= s[i] <= 'Z' then s[i] - 'A' + 'a' else s[i])
  }

  function Joined(labels: seq<string>): string {
    if labels == [] then []
    else if |labels| == 1 then labels[0]
    else Joined(labels[..|labels| - 1]) + "." + labels[|labels| - 1]
  }

  // -------------------------------------------------------------------------
  // Names
  // -------------------------------------------------------------------------

  /** Length octet and octets of each label, without the root octet. */
  function Wire(labels: seq<seq<byte>>): seq<byte>
    requires forall l | l in labels :: |l| < 256
  {
    if labels == [] then [] else [|labels[0]| as byte] + labels[0] + Wire(labels[1..])
  }

  /** A label list the reader accepts: the 255-octet limit is held against the labels without the root. */
  predicate Legal(utf8: Utf8, labels: seq<seq<byte>>) {
    && Readable(utf8, labels)
    && |Wire(labels)| <= MAX_NAME_WIRE_LEN
  }

  function Encode(labels: seq<seq<byte>>): seq<byte>
    requires forall l | l in labels :: |l| < 256
  {
    Wire(labels) + [0]
  }

  /** Every label is of legal length and decodes. */
  predicate Readable(utf8: Utf8, labels: seq<seq<byte>>) {
    forall l | l in labels :: 0 < |l| <= MAX_LABEL_LEN && utf8(l).Some?
  }

  function Decoded(utf8: Utf8, labels: seq<seq<byte>>): seq<string>
    requires Readable(utf8, labels)
  {
    seq(|labels|, i requires 0 <= i < |labels| => utf8(labels[i]).value)
  }

  /** The labels of the name `s` begins with, and what follows it; `used` octets of the limit are spent already. */
  function LabelsIn(utf8: Utf8, s: seq<byte>, used: nat): (r: Option<(seq<seq<byte>>, seq<byte>)>)
    ensures r.Some? ==> |r.value.1| < |s|
    ensures r.Some? ==> Readable(utf8, r.value.0)
    decreases |s|
  {
    if s == [] || s[0] >= 64 then None
    else if s[0] == 0 then Some(([], s[1..]))
    else
      var len := s[0] as nat;
      if used + 1 + len > MAX_NAME_WIRE_LEN || 1 + len > |s| || utf8(s[1..1 + len]) == None then None
      else Prefixed([s[1..1 + len]], LabelsIn(utf8, s[1 + len..], used + 1 + len))
  }

  function Prefixed(labels: seq<seq<byte>>, r: Option<(seq<seq<byte>>, seq<byte>)>)
    : Option<(seq<seq<byte>>, seq<byte>)>
  {
    if r == None then None else Some((labels + r.value.0, r.value.1))
  }

  /** The name at `pos`, lower-cased, and the offset after it. */
  function NameAt(utf8: Utf8, msg: seq<byte>, pos: nat): Option<(string, nat)>
    requires pos <= |msg|
  {
    match LabelsIn(utf8, msg[pos..], 0)
    case None => None
    case Some((labels, rest)) => Some((Lower(Joined(Decoded(utf8, labels))), |msg| - |rest|))
  }

  lemma LabelsStep(utf8: Utf8, msg: seq<byte>, pos: nat, used: nat, end: nat, next: nat, l: seq<byte>)
    requires pos < |msg| && 0 < msg[pos] < 64
    requires end == pos + 1 + msg[pos] <= |msg| && next == used + 1 + msg[pos] <= MAX_NAME_WIRE_LEN
    requires l == msg[pos + 1..end] && utf8(l).Some?
    ensures LabelsIn(utf8, msg[pos..], used) == Prefixed([l], LabelsIn(utf8, msg[end..], next))
  {
    RestAt(msg, pos, end);
  }

  /** The parts of what is left of `msg` from `pos` on. */
  lemma RestAt<T>(msg: seq<T>, pos: nat, end: nat)
    requires pos < end <= |msg|
    ensures var rest := msg[pos..];
            && |rest| >= end - pos && rest[0] == msg[pos]
            && rest[1..end - pos] == msg[pos + 1..end] && rest[end - pos..] == msg[end..]
  {}

  lemma LabelsFail(utf8: Utf8, msg: seq<byte>, pos: nat, used: nat)
    requires pos < |msg| && 0 < msg[pos] < 64
    requires var end := pos + 1 + msg[pos];
             used + 1 + msg[pos] > MAX_NAME_WIRE_LEN || end > |msg| || utf8(msg[pos + 1..end]) == None
    ensures LabelsIn(utf8, msg[pos..], used) == None
  {
    var here, end := msg[pos..], pos + 1 + msg[pos];
    assert end <= |msg| ==> here[1..1 + msg[pos]] == msg[pos + 1..end];
  }

  /** The label of length `msg[pos]` at `pos`, when it is within the limits and decodes. */
  function LabelAt(utf8: Utf8, msg: seq<byte>, pos: nat, used: nat): Option<string>
    requires pos < |msg|
  {
    var end := pos + 1 + msg[pos];
    if used + 1 + msg[pos] > MAX_NAME_WIRE_LEN || end > |msg| then None else utf8(msg[pos + 1..end])
  }

  /** Reading on at `pos`, with `used` octets spent on the labels whose texts are known. */
  function ReadFrom(utf8: Utf8, msg: seq<byte>, pos: nat, used: nat, labels: seq<string>): Option<(string, nat)>
    requires pos <= |msg|
    decreases |msg| - pos
  {
    if pos == |msg| || msg[pos] >= 64 then None
    else if msg[pos] == 0 then Some((Lower(Joined(labels)), pos + 1))
    else
      var len := msg[pos] as nat;
      match LabelAt(utf8, msg, pos, used)
      case None => None
      case Some(text) => ReadFrom(utf8, msg, pos + 1 + len, used + 1 + len, labels + [text])
  }

  /** The name whose first labels have the given texts and whose others are `r`, out of `size` octets. */
  function NameOf(utf8: Utf8, size: nat, labels: seq<string>, r: Option<(seq<seq<byte>>, seq<byte>)>)
    : Option<(string, nat)>
    requires r.Some? ==> Readable(utf8, r.value.0) && |r.value.1| <= size
  {
    if r == None then None else Some((Lower(Joined(labels + Decoded(utf8, r.value.0))), size - |r.value.1|))
  }

  /** Reading on finds the labels of the name that starts at `pos` and nothing else. */
  lemma {:induction false} ReadFromIs(utf8: Utf8, msg: seq<byte>, pos: nat, used: nat, labels: seq<string>)
    requires pos <= |msg|
    ensures ReadFrom(utf8, msg, pos, used, labels) == NameOf(utf8, |msg|, labels, LabelsIn(utf8, msg[pos..], used))
    decreases |msg| - pos
  {
    if pos == |msg| || msg[pos] >= 64 || msg[pos] == 0 {
      ReadEnd(utf8, msg, pos, used, labels);
    } else if LabelAt(utf8, msg, pos, used) == None {
      LabelsFail(utf8, msg, pos, used);
    } else {
      var end, next := pos + 1 + msg[pos] as nat, used + 1 + msg[pos] as nat;
      var l := msg[pos + 1..end];
      LabelsStep(utf8, msg, pos, used, end, next, l);
      ReadFromIs(utf8, msg, end, next, labels + [utf8(l).value]);
      NameOfMore(utf8, |msg|, labels, l, LabelsIn(utf8, msg[end..], next));
    }
  }

  lemma ReadEnd(utf8: Utf8, msg: seq<byte>, pos: nat, used: nat, labels: seq<string>)
    requires pos <= |msg| && (pos == |msg| || msg[pos] >= 64 || msg[pos] == 0)
    ensures ReadFrom(utf8, msg, pos, used, labels) == NameOf(utf8, |msg|, labels, LabelsIn(utf8, msg[pos..], used))
  {
    assert pos < |msg| ==> msg[pos..][1..] == msg[pos + 1..];
    assert labels + Decoded(utf8, []) == labels;
  }

  lemma NameOfMore(utf8: Utf8, size: nat, labels: seq<string>, l: seq<byte>, r: Option<(seq<seq<byte>>, seq<byte>)>)
    requires 0 < |l| <= MAX_LABEL_LEN && utf8(l).Some?
    requires r.Some? ==> Readable(utf8, r.value.0) && |r.value.1| <= size
    ensures Prefixed([l], r).Some? ==> Readable(utf8, Prefixed([l], r).value.0)
    ensures NameOf(utf8, size, labels + [utf8(l).value], r) == NameOf(utf8, size, labels, Prefixed([l], r))
  {
    if r.Some? {
      DecodedMore(utf8, labels, l, r.value.0);
    }
  }

  lemma DecodedMore(utf8: Utf8, labels: seq<string>, l: seq<byte>, raw: seq<seq<byte>>)
    requires Readable(utf8, raw) && 0 < |l| <= MAX_LABEL_LEN && utf8(l).Some?
    ensures Readable(utf8, [l] + raw)
    ensures labels + [utf8(l).value] + Decoded(utf8, raw) == labels + Decoded(utf8, [l] + raw)
  {}

  lemma ReadAll(utf8: Utf8, msg: seq<byte>, start: nat)
    requires start <= |msg|
    ensures ReadFrom(utf8, msg, start, 0, []) == NameAt(utf8, msg, start)
  {
    ReadFromIs(utf8, msg, start, 0, []);
    if LabelsIn(utf8, msg[start..], 0).Some? {
      var texts := Decoded(utf8, LabelsIn(utf8, msg[start..], 0).value.0);
      assert [] + texts == texts;
    }
  }

  /** The checks on one label, and its text. */
  method ReadLabel(utf8: Utf8, msg: seq<byte>, pos: nat, used: nat) returns (text: Option<string>)
    requires pos < |msg| && 0 < msg[pos] < 64
    ensures text == LabelAt(utf8, msg, pos, used)
  {
    var len := msg[pos] as nat;
    if len > MAX_LABEL_LEN { return None; }
    var wireLen := used + 1 + len;
    if wireLen > MAX_NAME_WIRE_LEN { return None; }
    var end := pos + 1 + len;
    if end > |msg| { return None; }
    text := utf8(msg[pos + 1..end]);
  }

  method ReadName(utf8: Utf8, msg: seq<byte>, start: nat) returns (r: Option<(string, nat)>)
    requires start <= |msg|
    ensures r == NameAt(utf8, msg, start)
  {
    var pos: nat, labels: seq<string>, wireLen: nat := start, [], 0;
    ReadAll(utf8, msg, start);
    while true
      invariant pos <= |msg| && ReadFrom(utf8, msg, pos, wireLen, labels) == NameAt(utf8, msg, start)
      decreases |msg| - pos
    {
      if pos == |msg| || msg[pos] >= 64 { return None; }
      if msg[pos] == 0 {
        return Some((Lower(Joined(labels)), pos + 1));
      }
      var text := ReadLabel(utf8, msg, pos, wireLen);
      if text == None { return None; }
      labels := labels + [text.value];
      pos, wireLen := pos + 1 + msg[pos] as nat, wireLen + 1 + msg[pos] as nat;
    }
  }

  lemma WireCons(l: seq<byte>, rest: seq<seq<byte>>)
    requires |l| < 256 && forall m | m in rest :: |m| < 256
    ensures Wire([l] + rest) == [|l| as byte] + l + Wire(rest)
  {
    assert ([l] + rest)[1..] == rest;
  }

  lemma Regroup(head: seq<byte>, l: seq<byte>, wire: seq<byte>, after: seq<byte>)
    ensures ((head + l + wire) + [0]) + after == head + l + ((wire + [0]) + after)
  {}

  /** One label off a name that is read. */
  lemma FirstLabel(utf8: Utf8, s: seq<byte>, used: nat) returns (l: seq<byte>, next: seq<byte>)
    requires s != [] && s[0] != 0 && LabelsIn(utf8, s, used).Some?
    ensures 0 < |l| <= MAX_LABEL_LEN && utf8(l).Some? && used + 1 + |l| <= MAX_NAME_WIRE_LEN
    ensures s == [|l| as byte] + l + next
    ensures LabelsIn(utf8, next, used + 1 + |l|).Some?
    ensures var (labels, rest) := LabelsIn(utf8, next, used + 1 + |l|).value;
            LabelsIn(utf8, s, used) == Some(([l] + labels, rest))
  {
    var len := s[0] as nat;
    l, next := s[1..1 + len], s[1 + len..];
    SplitOff(s, len);
  }

  /** `s` is the encoding of the labels of `r` and then the rest; `used` octets of the limit were spent before. */
  predicate Spells(s: seq<byte>, r: (seq<seq<byte>>, seq<byte>), used: nat) {
    && (forall l | l in r.0 :: |l| < 256)
    && s == Encode(r.0) + r.1 && (r.0 == [] || used + |Wire(r.0)| <= MAX_NAME_WIRE_LEN)
  }

  lemma SpellsNothing(s: seq<byte>, used: nat)
    requires s != [] && s[0] == 0
    ensures Spells(s, ([], s[1..]), used)
  {
    assert s == [0] + s[1..];
  }

  lemma SpellsMore(l: seq<byte>, next: seq<byte>, r: (seq<seq<byte>>, seq<byte>), used: nat)
    requires 0 < |l| < 256 && used + 1 + |l| <= MAX_NAME_WIRE_LEN && Spells(next, r, used + 1 + |l|)
    ensures Spells([|l| as byte] + l + next, ([l] + r.0, r.1), used)
  {
    EncodeFirst([l] + r.0, r.1);
    TailOf(l, r.0);
  }

  /** What is read is the encoding of a legal list, exactly. */
  lemma {:induction false} LabelsMean(utf8: Utf8, s: seq<byte>, used: nat)
    requires LabelsIn(utf8, s, used).Some?
    ensures Spells(s, LabelsIn(utf8, s, used).value, used)
    decreases |s|
  {
    if s[0] == 0 {
      SpellsNothing(s, used);
    } else {
      var l, next := FirstLabel(utf8, s, used);
      LabelsMean(utf8, next, used + 1 + |l|);
      SpellsMore(l, next, LabelsIn(utf8, next, used + 1 + |l|).value, used);
    }
  }

  lemma TailOf<T>(l: T, labels: seq<T>)
    ensures ([l] + labels)[0] == l && ([l] + labels)[1..] == labels
  {}

  lemma SplitOff(s: seq<byte>, len: nat)
    requires 1 + len <= |s| && s[0] == len
    ensures s == [|s[1..1 + len]| as byte] + s[1..1 + len] + s[1 + len..]
  {}

  lemma ReadsOne(utf8: Utf8, l: seq<byte>, after: seq<byte>, used: nat)
    requires 0 < |l| <= MAX_LABEL_LEN && utf8(l).Some? && used + 1 + |l| <= MAX_NAME_WIRE_LEN
    ensures LabelsIn(utf8, [|l| as byte] + l + after, used) == Prefixed([l], LabelsIn(utf8, after, used + 1 + |l|))
  {
    ThreeParts(|l| as byte, l, after);
  }

  lemma ThreeParts<T>(first: T, l: seq<T>, after: seq<T>)
    ensures var s := [first] + l + after;
            |s| == 1 + |l| + |after| && s[0] == first && s[1..1 + |l|] == l && s[1 + |l|..] == after
  {}

  lemma EncodeFirst(labels: seq<seq<byte>>, after: seq<byte>)
    requires labels != [] && forall l | l in labels :: |l| < 256
    ensures Encode(labels) + after == [|labels[0]| as byte] + labels[0] + (Encode(labels[1..]) + after)
    ensures |Wire(labels)| == 1 + |labels[0]| + |Wire(labels[1..])|
  {
    Regroup([|labels[0]| as byte], labels[0], Wire(labels[1..]), after);
  }

  lemma PrefixedBack(labels: seq<seq<byte>>, after: seq<byte>)
    requires labels != []
    ensures Prefixed([labels[0]], Some((labels[1..], after))) == Some((labels, after))
  {
    assert [labels[0]] + labels[1..] == labels;
  }

  lemma {:induction false} ReadsEncoded(utf8: Utf8, labels: seq<seq<byte>>, after: seq<byte>, used: nat)
    requires Readable(utf8, labels)
    requires used + |Wire(labels)| <= MAX_NAME_WIRE_LEN
    ensures LabelsIn(utf8, Encode(labels) + after, used) == Some((labels, after))
    decreases |labels|
  {
    if labels == [] {
      assert (Encode(labels) + after)[1..] == after;
    } else {
      var l, rest := labels[0], labels[1..];
      EncodeFirst(labels, after);
      ReadsEncoded(utf8, rest, after, used + 1 + |l|);
      ReadsOne(utf8, l, Encode(rest) + after, used);
      PrefixedBack(labels, after);
    }
  }

  /** A name is read if and only if the encoding of a legal label list stands there. */
  lemma NameReadIff(utf8: Utf8, s: seq<byte>)
    ensures LabelsIn(utf8, s, 0).Some? <==> exists labels :: Legal(utf8, labels) && Encode(labels) <= s
  {
    if LabelsIn(utf8, s, 0).Some? {
      LabelsMean(utf8, s, 0);
      var (labels, rest) := LabelsIn(utf8, s, 0).value;
      assert Legal(utf8, labels) && Encode(labels) <= s;
    }
    if labels :| Legal(utf8, labels) && Encode(labels) <= s {
      EncodedIsRead(utf8, labels, s);
    }
  }

  lemma EncodedIsRead(utf8: Utf8, labels: seq<seq<byte>>, s: seq<byte>)
    requires Legal(utf8, labels) && Encode(labels) <= s
    ensures LabelsIn(utf8, s, 0).Some?
  {
    var rest := s[|Encode(labels)|..];
    assert s == Encode(labels) + rest;
    ReadsEncoded(utf8, labels, rest, 0);
  }

  /**
   The limit of section 2.3.4 of RFC 1035 counts the root octet and this reader does not: it accepts a
   name exactly when its labels fit into 255 octets, so one whole name of 256.
   */
  lemma RootOctetIsNotCounted(utf8: Utf8, a: seq<byte>, b: seq<byte>)
    requires |a| == 63 && |b| == 62 && utf8(a).Some? && utf8(b).Some?
    ensures Legal(utf8, [a, a, a, b]) && |Encode([a, a, a, b])| == MAX_NAME_WIRE_LEN + 1
    ensures LabelsIn(utf8, Encode([a, a, a, b]), 0).Some?
  {
    WireCons(b, []);
    WireCons(a, [b]);
    WireCons(a, [a, b]);
    WireCons(a, [a, a, b]);
    assert [b] + [] == [b] && [a] + [b] == [a, b] && [a] + [a, b] == [a, a, b] && [a] + [a, a, b] == [a, a, a, b];
    ReadsEncoded(utf8, [a, a, a, b], [], 0);
    assert Encode([a, a, a, b]) + [] == Encode([a, a, a, b]);
  }

  /** An accepted name takes more than 255 octets with its root octet if and only if its labels take 255. */
  lemma OverLimitIff(utf8: Utf8, s: seq<byte>)
    requires LabelsIn(utf8, s, 0).Some?
    ensures var (labels, rest) := LabelsIn(utf8, s, 0).value;
            |s| - |rest| > MAX_NAME_WIRE_LEN <==> |Wire(labels)| == MAX_NAME_WIRE_LEN
  {
    LabelsMean(utf8, s, 0);
  }

  // -------------------------------------------------------------------------
  // Queries
  // -------------------------------------------------------------------------

  function ParseQueryWithEnd(utf8: Utf8, msg: seq<byte>): Option<(DnsQuestion, nat)> {
    if |msg| < HEADER_LEN then None
    else if IsResponse(msg[2]) || Opcode(msg[2]) != 0 then None
    else if U16(msg[4], msg[5]) != 1 then None
    else
      match NameAt(utf8, msg, HEADER_LEN)
      case None => None
      case Some((name, at)) =>
        if |msg| < at + 4 then None
        else
          var qtype, qclass := U16(msg[at], msg[at + 1]), U16(msg[at + 2], msg[at + 3]);
          Some((DnsQuestion(U16(msg[0], msg[1]), name, qtype, qclass), at + 4))
  }

  /** A header of a standard query with one question. */
  predicate QueryHeader(header: seq<byte>) {
    && |header| == HEADER_LEN
    && !IsResponse(header[2]) && Opcode(header[2]) == 0 && header[4] == 0 && header[5] == 1
  }

  /** Header, name, and the four octets of type and class. */
  datatype Query = Query(header: seq<byte>, labels: seq<seq<byte>>, tail: seq<byte>)

  predicate Proper(utf8: Utf8, q: Query) {
    QueryHeader(q.header) && Legal(utf8, q.labels) && |q.tail| == 4
  }

  function Octets(utf8: Utf8, q: Query): seq<byte>
    requires Proper(utf8, q)
  {
    q.header + (Encode(q.labels) + q.tail)
  }

  function QuestionOf(utf8: Utf8, q: Query): DnsQuestion
    requires Proper(utf8, q)
  {
    DnsQuestion(U16(q.header[0], q.header[1]), Lower(Joined(Decoded(utf8, q.labels))),
                U16(q.tail[0], q.tail[1]), U16(q.tail[2], q.tail[3]))
  }

  lemma Layout(header: seq<byte>, name: seq<byte>, tail: seq<byte>, rest: seq<byte>)
    requires |header| == HEADER_LEN && |tail| == 4
    ensures var msg, at := header + (name + tail) + rest, HEADER_LEN + |name|;
            && |msg| == at + 4 + |rest| && msg[HEADER_LEN..] == name + (tail + rest)
            && msg[0] == header[0] && msg[1] == header[1] && msg[2] == header[2]
            && msg[4] == header[4] && msg[5] == header[5]
            && msg[at] == tail[0] && msg[at + 1] == tail[1] && msg[at + 2] == tail[2] && msg[at + 3] == tail[3]
  {}

  /** Parsing inverts encoding, up to the case of the name, whatever follows. */
  lemma ParsesEncoded(utf8: Utf8, q: Query, rest: seq<byte>)
    requires Proper(utf8, q)
    ensures ParseQueryWithEnd(utf8, Octets(utf8, q) + rest) == Some((QuestionOf(utf8, q), |Octets(utf8, q)|))
  {
    var msg := Octets(utf8, q) + rest;
    Layout(q.header, Encode(q.labels), q.tail, rest);
    ReadsEncoded(utf8, q.labels, q.tail + rest, 0);
    var at := HEADER_LEN + |Encode(q.labels)|;
    assert NameAt(utf8, msg, HEADER_LEN) == Some((Lower(Joined(Decoded(utf8, q.labels))), at));
  }

  lemma {:induction false} JoinedIsJoin(labels: seq<string>)
    ensures labels == [] ==> Joined(labels) == ""
    ensures labels != [] ==> Joined(labels) == Names.Join(labels)
  {
    if |labels| > 1 {
      var n := |labels| - 1;
      JoinedIsJoin(labels[..n]);
      Names.JoinConcat(labels[..n], [labels[n]]);
      assert labels == labels[..n] + [labels[n]];
    }
  }

  /** `c` with an ASCII upper-case letter made lower-case. */
  predicate Lowered(c: char, l: char) {
    if 65 <= c as int <= 90 then l as int == c as int + 32 else l == c
  }

  /** The text of a label list: each label decoded, one dot between two of them. */
  function Text(utf8: Utf8, labels: seq<seq<byte>>): string
    requires Readable(utf8, labels)
  {
    if labels == [] then ""
    else Names.Join(seq(|labels|, i requires 0 <= i < |labels| => utf8(labels[i]).value))
  }

  /**
   What the parsed question is, octet by octet: identifier, type and class are big-endian pairs, and the
   name is the text of the labels with ASCII letters in lower case.
   */
  lemma QuestionMeans(utf8: Utf8, q: Query, rest: seq<byte>)
    requires Proper(utf8, q)
    ensures ParseQueryWithEnd(utf8, Octets(utf8, q) + rest).Some?
    ensures var parsed := ParseQueryWithEnd(utf8, Octets(utf8, q) + rest).value.0;
            var text := Text(utf8, q.labels);
            && parsed.id == q.header[0] as int * 256 + q.header[1] as int
            && parsed.qtype == q.tail[0] as int * 256 + q.tail[1] as int
            && parsed.qclass == q.tail[2] as int * 256 + q.tail[3] as int
            && |parsed.name| == |text| && forall i | 0 <= i < |text| :: Lowered(text[i], parsed.name[i])
  {
    ParsesEncoded(utf8, q, rest);
    JoinedIsJoin(Decoded(utf8, q.labels));
  }

  /** And every message that parses is an encoding followed by something. */
  lemma ParsedIsEncoded(utf8: Utf8, msg: seq<byte>) returns (q: Query, rest: seq<byte>)
    requires ParseQueryWithEnd(utf8, msg).Some?
    ensures Proper(utf8, q) && msg == Octets(utf8, q) + rest
    ensures q.header == msg[..HEADER_LEN]
  {
    LabelsMean(utf8, msg[HEADER_LEN..], 0);
    var (labels, after) := LabelsIn(utf8, msg[HEADER_LEN..], 0).value;
    q := Query(msg[..HEADER_LEN], labels, after[..4]);
    rest := after[4..];
    FourParts(msg, HEADER_LEN, Encode(labels), after, 4);
  }

  lemma FourParts<T>(msg: seq<T>, n: nat, name: seq<T>, after: seq<T>, k: nat)
    requires n <= |msg| && msg[n..] == name + after && k <= |after|
    ensures msg == msg[..n] + (name + after[..k]) + after[k..]
  {
    assert msg == msg[..n] + msg[n..];
    assert after == after[..k] + after[k..];
  }

  /** Whatever follows the question is ignored. */
  lemma ExtensionsIgnored(utf8: Utf8, msg: seq<byte>, other: seq<byte>)
    requires ParseQueryWithEnd(utf8, msg).Some?
    ensures var end := ParseQueryWithEnd(utf8, msg).value.1;
            && HEADER_LEN < end <= |msg|
            && (msg[..end] <= other ==> ParseQueryWithEnd(utf8, other) == ParseQueryWithEnd(utf8, msg))
  {
    var q, rest := ParsedIsEncoded(utf8, msg);
    ParsesEncoded(utf8, q, rest);
    var whole := Octets(utf8, q);
    assert msg[..|whole|] == whole;
    if whole <= other {
      assert other == whole + other[|whole|..];
      ParsesEncoded(utf8, q, other[|whole|..]);
    }
  }

  /** Nothing cut before the end of the question parses. */
  lemma TruncationsRejected(utf8: Utf8, msg: seq<byte>, cut: nat)
    requires ParseQueryWithEnd(utf8, msg).Some? && cut < ParseQueryWithEnd(utf8, msg).value.1
    ensures cut < |msg| && ParseQueryWithEnd(utf8, msg[..cut]) == None
  {
    ExtensionsIgnored(utf8, msg, msg);
    if ParseQueryWithEnd(utf8, msg[..cut]).Some? {
      ExtensionsIgnored(utf8, msg[..cut], msg);
    }
  }

  // -------------------------------------------------------------------------
  // The refusal
  // -------------------------------------------------------------------------

  /** `out` refuses the query that `query[..end]` is: every header field, and the question echoed. */
  predicate Refuses(query: seq<byte>, end: nat, out: seq<byte>)
    requires HEADER_LEN <= end <= |query|
  {
    && |out| == end
    && out[0] == query[0] && out[1] == query[1]
    && IsResponse(out[2]) && Opcode(out[2]) == Opcode(query[2])
    && RecursionDesired(out[2]) == RecursionDesired(query[2])
    && out[2] / 2 % 4 == 0
    && out[3] / 16 == 8 && out[3] % 16 == RCODE_NXDOMAIN
    && out[4] == query[4] && out[5] == query[5]
    && (forall i | 6 <= i < HEADER_LEN :: out[i] == 0)
    && out[HEADER_LEN..] == query[HEADER_LEN..end]
  }

  /** The response flags octet keeps opcode and RD, sets QR, and clears AA and TC. */
  lemma FlagBits(flags: byte)
    ensures var hi := 128 + Opcode(flags) * 8 + RecursionDesired(flags);
            && IsResponse(hi) && hi < 256 && Opcode(hi) == Opcode(flags)
            && RecursionDesired(hi) == RecursionDesired(flags) && hi / 2 % 4 == 0
  {}

  /**
   The refusal octet by octet: identifier; QR with the opcode and RD of the query; RA with code 3;
   question count; no records of any other kind; the question.
   */
  function RefusalOf(query: seq<byte>, end: nat): seq<byte>
    requires 12 <= end <= |query|
  {
    query[..2] + [128 + query[2] / 8 % 16 * 8 + query[2] % 2, 0x83] + query[4..6] + [0, 0, 0, 0, 0, 0] + query[12..end]
  }

  method NxdomainResponse(utf8: Utf8, query: seq<byte>) returns (r: Option<seq<byte>>)
    ensures r == None <==> ParseQueryWithEnd(utf8, query) == None
    ensures r.Some? ==>
              && HEADER_LEN < ParseQueryWithEnd(utf8, query).value.1 <= |query|
              && Refuses(query, ParseQueryWithEnd(utf8, query).value.1, r.value)
              && r.value == RefusalOf(query, ParseQueryWithEnd(utf8, query).value.1)
  {
    var parsed := ParseQueryWithEnd(utf8, query);
    if parsed == None { return None; }
    ExtensionsIgnored(utf8, query, query);
    var out := Refusal(query, parsed.value.1);
    return Some(out);
  }

  /** The query up to `end`, its header turned into that of a refusal. */
  method Refusal(query: seq<byte>, end: nat) returns (out: seq<byte>)
    requires HEADER_LEN <= end <= |query|
    ensures Refuses(query, end, out) && out == RefusalOf(query, end)
  {
    out := query[..end];
    var flags := out[2];
    FlagBits(flags);
    out := out[2 := 128 + Opcode(flags) * 8 + RecursionDesired(flags)];
    out := out[3 := 128 + RCODE_NXDOMAIN];
    out := out[6 := 0][7 := 0];
    out := out[8 := 0][9 := 0];
    out := out[10 := 0][11 := 0];
  }

  /** A refusal with the query's flags put back is again an encoding of the same question. */
  lemma EchoIsEncoded(utf8: Utf8, q: Query, rest: seq<byte>, out: seq<byte>) returns (again: Query)
    requires Proper(utf8, q)
    requires Refuses(Octets(utf8, q) + rest, |Octets(utf8, q)|, out)
    ensures Proper(utf8, again) && again.labels == q.labels && again.tail == q.tail
    ensures again.header[0] == q.header[0] && again.header[1] == q.header[1]
    ensures out[2 := q.header[2]] == Octets(utf8, again) + []
  {
    var query, end := Octets(utf8, q) + rest, |Octets(utf8, q)|;
    again := q.(header := out[2 := q.header[2]][..HEADER_LEN]);
    assert query[HEADER_LEN..end] == Encode(q.labels) + q.tail;
  }

  /** A refusal is never taken for a query, and carries the very question it refuses. */
  lemma RefusalEchoes(utf8: Utf8, query: seq<byte>, out: seq<byte>)
    requires ParseQueryWithEnd(utf8, query).Some?
    requires ParseQueryWithEnd(utf8, query).value.1 <= |query| && HEADER_LEN <= ParseQueryWithEnd(utf8, query).value.1
    requires Refuses(query, ParseQueryWithEnd(utf8, query).value.1, out)
    ensures ParseQueryWithEnd(utf8, out) == None
    ensures ParseQueryWithEnd(utf8, out[2 := query[2]]) == ParseQueryWithEnd(utf8, query)
    ensures |out| == ParseQueryWithEnd(utf8, query).value.1
  {
    var q, rest := ParsedIsEncoded(utf8, query);
    ParsesEncoded(utf8, q, rest);
    var again := EchoIsEncoded(utf8, q, rest, out);
    ParsesEncoded(utf8, again, []);
  }
}
