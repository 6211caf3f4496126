/**
 The MIT keytab version 2 reader (shared/keytab/parse.go).

 The reader is modelled twice. `Parse` and `ParseEntry` are the source's cursor loops. `DecodeFile`
 is what they compute, kept in full detail (skipped fields, deleted records, the bytes after an
 end-of-file marker), so that it has an inverse, `EncodeFile`, written from the layout in the
 "Keytab file format" document of MIT Kerberos. The theorems say that the two are inverse to each
 other, and so characterise every input the reader accepts, rejects or panics on.
 */
module Keytab {
  import opened Common
  import opened Text
  import opened Sorting

  datatype Entry = Entry(principal: Bytes, timestamp: nat, kvno: nat, enctypeId: nat, enctypeName: string)

  datatype Error = Empty | Truncated | UnsupportedVersion(got: nat)

  /** Panicked: the slice expression at parse.go:171 runs off its bounds. */
  datatype Outcome<+T> = Parsed(value: T) | Failed(error: Error) | Panicked

  const TWO16 := 0x1_0000
  const TWO31 := 0x8000_0000
  const TWO32 := 0x1_0000_0000
  const VERSION := 0x0502
  const HEADER: Bytes := [5, 2]

  /******* Big-endian numbers *******/

  function U16(s: Bytes, i: nat): (n: nat)
    requires i + 2 <= |s|
    ensures n < TWO16
  {
    s[i] as int * 256 + s[i + 1] as int
  }

  function U32(s: Bytes, i: nat): (n: nat)
    requires i + 4 <= |s|
    ensures n < TWO32
  {
    U16(s, i) * TWO16 + U16(s, i + 2)
  }

  function Put16(n: nat): (s: Bytes)
    requires n < TWO16
    ensures |s| == 2 && U16(s, 0) == n
  {
    [(n / 256) as byte, (n % 256) as byte]
  }

  function Put32(n: nat): (s: Bytes)
    requires n < TWO32
    ensures |s| == 4 && U32(s, 0) == n
  {
    Put16(n / TWO16) + Put16(n % TWO16)
  }

  lemma Put16OfU16(s: Bytes, i: nat)
    requires i + 2 <= |s|
    ensures Put16(U16(s, i)) == s[i..i + 2]
  {
  }

  lemma Put32OfU32(s: Bytes, i: nat)
    requires i + 4 <= |s|
    ensures Put32(U32(s, i)) == s[i..i + 4]
  {
    Put16OfU16(s, i);
    Put16OfU16(s, i + 2);
    var hi, lo := U16(s, i), U16(s, i + 2);
    assert U32(s, i) / TWO16 == hi && U32(s, i) % TWO16 == lo;
    assert s[i..i + 4] == s[i..i + 2] + s[i + 2..i + 4];
  }

  /******* Entry bodies *******/

  /** One entry with everything its bytes hold; `tail` is what follows the key. */
  datatype Body = Body(realm: Bytes, components: seq<Bytes>, nameType: nat, timestamp: nat,
                       vno8: byte, enctype: nat, key: Bytes, tail: Bytes)

  predicate Short(s: Bytes) { |s| < TWO16 }

  ghost predicate WellFormedBody(b: Body) {
    && Short(b.realm) && Short(b.key)
    && |b.components| < TWO16 && (forall c :: c in b.components ==> Short(c))
    && b.nameType < TWO32 && b.timestamp < TWO32 && b.enctype < TWO16
  }

  function EncodeString(s: Bytes): Bytes
    requires Short(s)
  {
    Put16(|s|) + s
  }

  function EncodeComponents(cs: seq<Bytes>): Bytes
    requires forall c :: c in cs ==> Short(c)
  {
    if cs == [] then [] else EncodeString(cs[0]) + EncodeComponents(cs[1..])
  }

  ghost function EncodeKeyPart(b: Body): (s: Bytes)
    requires WellFormedBody(b)
    ensures |s| == 13 + |b.key| + |b.tail|
  {
    Put32(b.nameType) + Put32(b.timestamp) + [b.vno8] + Put16(b.enctype) + EncodeString(b.key) + b.tail
  }

  /** What follows the number of components. */
  ghost function EncodeParts(b: Body): Bytes
    requires WellFormedBody(b)
  {
    EncodeString(b.realm) + (EncodeComponents(b.components) + EncodeKeyPart(b))
  }

  ghost function EncodeBody(b: Body): (s: Bytes)
    requires WellFormedBody(b)
    ensures |s| >= 17
  {
    Put16(|b.components|) + EncodeParts(b)
  }

  /** `readCountedString`: the string and the number of bytes it took. */
  function ReadCountedString(b: Bytes): (r: Option<(Bytes, nat)>)
    ensures r.Some? <==> |b| >= 2 && 2 + U16(b, 0) <= |b|
    ensures r.Some? ==> r.value.1 == 2 + |r.value.0| <= |b| && r.value.0 == b[2..r.value.1]
  {
    if |b| < 2 then None
    else
      var n := U16(b, 0);
      if 2 + n > |b| then None else Some((b[2..2 + n], 2 + n))
  }

  function DecodeComponents(s: Bytes, n: nat): (r: Option<(seq<Bytes>, Bytes)>)
    ensures r.Some? ==> |r.value.0| == n && |r.value.1| <= |s|
  {
    if n == 0 then Some(([], s))
    else
      match ReadCountedString(s)
      case None => None
      case Some((c, used)) =>
        After([c], DecodeComponents(s[used..], n - 1))
  }

  /** The part of a body after its components. */
  function DecodeKeyPart(realm: Bytes, components: seq<Bytes>, s: Bytes): Option<Body> {
    if |s| < 13 || 13 + U16(s, 11) > |s| then None
    else
      var end := 13 + U16(s, 11);
      Some(Body(realm, components, U32(s, 0), U32(s, 4), s[8], U16(s, 9), s[13..end], s[end..]))
  }

  /** A body of `n` components after its count. */
  function DecodeParts(n: nat, s: Bytes): Option<Body> {
    match ReadCountedString(s)
    case None => None
    case Some((realm, used)) =>
      match DecodeComponents(s[used..], n)
      case None => None
      case Some((components, rest)) => DecodeKeyPart(realm, components, rest)
  }

  function DecodeBody(s: Bytes): Option<Body> {
    if |s| < 2 then None else DecodeParts(U16(s, 0), s[2..])
  }

  lemma Read16(n: nat, rest: Bytes)
    requires n < TWO16
    ensures U16(Put16(n) + rest, 0) == n && (Put16(n) + rest)[2..] == rest
  {
    assert forall i :: 0 <= i < 2 ==> (Put16(n) + rest)[i] == Put16(n)[i];
  }

  lemma Read32(n: nat, rest: Bytes)
    requires n < TWO32
    ensures U32(Put32(n) + rest, 0) == n && (Put32(n) + rest)[4..] == rest
  {
    assert forall i :: 0 <= i < 4 ==> (Put32(n) + rest)[i] == Put32(n)[i];
  }

  lemma ReadEncodedString(x: Bytes, rest: Bytes)
    requires Short(x)
    ensures ReadCountedString(EncodeString(x) + rest) == Some((x, 2 + |x|))
    ensures (EncodeString(x) + rest)[2 + |x|..] == rest
  {
    var s := EncodeString(x) + rest;
    assert s[0] == Put16(|x|)[0] && s[1] == Put16(|x|)[1];
    assert s[2..2 + |x|] == x;
  }

  lemma EncodeReadString(s: Bytes)
    requires ReadCountedString(s).Some?
    ensures var (x, used) := ReadCountedString(s).value; Short(x) && s == EncodeString(x) + s[used..]
  {
    Put16OfU16(s, 0);
  }

  lemma DecodeFirstComponent(c: Bytes, more: Bytes, n: nat, cs: seq<Bytes>, rest: Bytes)
    requires Short(c) && DecodeComponents(more, n) == Some((cs, rest))
    ensures DecodeComponents(EncodeString(c) + more, n + 1) == Some(([c] + cs, rest))
  {
    ReadEncodedString(c, more);
  }

  lemma FirstComponent(cs: seq<Bytes>, rest: Bytes)
    requires cs != [] && forall c :: c in cs ==> Short(c)
    ensures EncodeComponents(cs) + rest == EncodeString(cs[0]) + (EncodeComponents(cs[1..]) + rest)
  {
    var first, others := EncodeString(cs[0]), EncodeComponents(cs[1..]);
    assert EncodeComponents(cs) == first + others;
    Reassociate(first, others, rest);
  }

  lemma {:induction false} DecodeEncodedComponents(cs: seq<Bytes>, rest: Bytes)
    requires forall c :: c in cs ==> Short(c)
    ensures DecodeComponents(EncodeComponents(cs) + rest, |cs|) == Some((cs, rest))
  {
    if cs == [] {
      assert EncodeComponents(cs) + rest == rest;
    } else {
      DecodeEncodedComponents(cs[1..], rest);
      DecodeFirstComponent(cs[0], EncodeComponents(cs[1..]) + rest, |cs| - 1, cs[1..], rest);
      FirstComponent(cs, rest);
      assert [cs[0]] + cs[1..] == cs;
    }
  }

  lemma {:induction false} EncodeDecodedComponents(s: Bytes, n: nat)
    requires DecodeComponents(s, n).Some?
    ensures var (cs, rest) := DecodeComponents(s, n).value;
            (forall c :: c in cs ==> Short(c)) && s == EncodeComponents(cs) + rest
  {
    if n > 0 {
      var (c, used) := ReadCountedString(s).value;
      EncodeReadString(s);
      EncodeDecodedComponents(s[used..], n - 1);
      var (cs, rest) := DecodeComponents(s[used..], n - 1).value;
      assert ([c] + cs)[0] == c && ([c] + cs)[1..] == cs;
      FirstComponent([c] + cs, rest);
    }
  }

  lemma DecodeEncodedKeyPart(b: Body)
    requires WellFormedBody(b)
    ensures DecodeKeyPart(b.realm, b.components, EncodeKeyPart(b)) == Some(b)
  {
    var s := EncodeKeyPart(b);
    var name, time, etype, klen := Put32(b.nameType), Put32(b.timestamp), Put16(b.enctype), Put16(|b.key|);
    assert s[0..4] == name && s[4..8] == time && s[8] == b.vno8 && s[9..11] == etype && s[11..13] == klen;
    assert U32(s, 0) == U32(name, 0) && U32(s, 4) == U32(time, 0) && U16(s, 9) == U16(etype, 0) && U16(s, 11) == U16(klen, 0)
    by { assert forall i :: 0 <= i < 4 ==> s[i] == s[0..4][i] && s[4 + i] == s[4..8][i];
         assert forall i :: 0 <= i < 2 ==> s[9 + i] == s[9..11][i] && s[11 + i] == s[11..13][i]; }
    assert s[13..13 + |b.key|] == b.key && s[13 + |b.key|..] == b.tail;
  }

  lemma KeyPartPieces(s: Bytes, end: nat)
    requires 13 <= end <= |s|
    ensures s[0..4] + s[4..8] + [s[8]] + s[9..11] + (s[11..13] + s[13..end]) + s[end..] == s
  {
    assert s[0..4] + s[4..8] == s[0..8];
    assert s[0..8] + [s[8]] == s[0..9];
    assert s[0..9] + s[9..11] == s[0..11];
    assert s[0..11] + (s[11..13] + s[13..end]) == s[0..end];
    assert s[0..end] + s[end..] == s;
  }

  lemma EncodeDecodedKeyPart(realm: Bytes, components: seq<Bytes>, s: Bytes)
    requires Short(realm) && |components| < TWO16 && (forall c :: c in components ==> Short(c))
    requires DecodeKeyPart(realm, components, s).Some?
    ensures var b := DecodeKeyPart(realm, components, s).value; WellFormedBody(b) && EncodeKeyPart(b) == s
  {
    Put32OfU32(s, 0);
    Put32OfU32(s, 4);
    Put16OfU16(s, 9);
    Put16OfU16(s, 11);
    KeyPartPieces(s, 13 + U16(s, 11));
  }

  lemma DecodeEncodedBody(b: Body)
    requires WellFormedBody(b)
    ensures DecodeBody(EncodeBody(b)) == Some(b)
  {
    var afterRealm := EncodeComponents(b.components) + EncodeKeyPart(b);
    Read16(|b.components|, EncodeParts(b));
    ReadEncodedString(b.realm, afterRealm);
    DecodeEncodedComponents(b.components, EncodeKeyPart(b));
    DecodeEncodedKeyPart(b);
  }

  lemma EncodeDecodedParts(n: nat, s: Bytes)
    requires n < TWO16 && DecodeParts(n, s).Some?
    ensures var b := DecodeParts(n, s).value; WellFormedBody(b) && |b.components| == n && EncodeParts(b) == s
  {
    EncodeReadString(s);
    var (realm, used) := ReadCountedString(s).value;
    EncodeDecodedComponents(s[used..], n);
    var (components, rest) := DecodeComponents(s[used..], n).value;
    EncodeDecodedKeyPart(realm, components, rest);
  }

  lemma EncodeDecodedBody(s: Bytes)
    requires DecodeBody(s).Some?
    ensures WellFormedBody(DecodeBody(s).value) && EncodeBody(DecodeBody(s).value) == s
  {
    EncodeDecodedParts(U16(s, 0), s[2..]);
    Put16OfU16(s, 0);
    assert s == s[0..2] + s[2..];
  }

  /******* Records and files *******/

  datatype Record = Live(body: Body) | Hole(skipped: Bytes)

  /** The records of a file and, when it has an end-of-file marker, what follows the marker. */
  datatype File = File(records: seq<Record>, trailer: Option<Bytes>)

  ghost predicate WellFormedRecord(r: Record) {
    match r
    case Live(b) => WellFormedBody(b) && |EncodeBody(b)| < TWO31
    case Hole(skipped) => 0 < |skipped| < TWO31
  }

  ghost predicate WellFormedRecords(rs: seq<Record>) { forall r :: r in rs ==> WellFormedRecord(r) }

  /** The bytes of a record after its length word. */
  ghost function Content(r: Record): (s: Bytes)
    requires WellFormedRecord(r)
    ensures 0 < |s| < TWO31 && (r.Live? ==> |s| >= 17)
  {
    match r
    case Live(b) => EncodeBody(b)
    case Hole(skipped) => skipped
  }

  /** The length word; a deleted record has its length negated. */
  ghost function Word(r: Record): nat
    requires WellFormedRecord(r)
  {
    if r.Live? then |Content(r)| else TWO32 - |Content(r)|
  }

  ghost function EncodeRecord(r: Record): (s: Bytes)
    requires WellFormedRecord(r)
    ensures |s| > 4 && (r.Live? ==> |s| >= 21)
  {
    Put32(Word(r)) + Content(r)
  }

  ghost function EncodeRecords(rs: seq<Record>): Bytes
    requires WellFormedRecords(rs)
  {
    if rs == [] then [] else EncodeRecord(rs[0]) + EncodeRecords(rs[1..])
  }

  ghost function EncodeTrailer(t: Option<Bytes>): Bytes {
    match t
    case None => []
    case Some(rest) => [0, 0, 0, 0] + rest
  }

  ghost function EncodeFile(f: File): Bytes
    requires WellFormedRecords(f.records)
  {
    HEADER + (EncodeRecords(f.records) + EncodeTrailer(f.trailer))
  }

  function Prepend(rs: seq<Record>, o: Outcome<File>): Outcome<File> {
    match o
    case Parsed(f) => Parsed(File(rs + f.records, f.trailer))
    case _ => o
  }

  lemma PrependPrepend(a: seq<Record>, b: seq<Record>, o: Outcome<File>)
    ensures Prepend(a, Prepend(b, o)) == Prepend(a + b, o)
    ensures Prepend([], o) == o
  {
    if o.Parsed? {
      assert a + (b + o.value.records) == (a + b) + o.value.records;
      assert [] + o.value.records == o.value.records;
    }
  }

  /** What the bytes from a record boundary on start with. */
  datatype Scan = Marker(rest: Bytes) | CutShort | MinInt32 | One(record: Record, rest: Bytes)

  function ScanWord(word: nat, rest: Bytes): (r: Scan)
    requires word < TWO32
    ensures r.One? ==> |r.rest| <= |rest|
  {
    if word == 0 then Marker(rest)
    else if word == TWO31 then MinInt32
    else
      var len := if word < TWO31 then word else TWO32 - word;
      if len > |rest| then CutShort
      else if word > TWO31 then One(Hole(rest[..len]), rest[len..])
      else
        match DecodeBody(rest[..len])
        case None => CutShort
        case Some(b) => One(Live(b), rest[len..])
  }

  function ScanRecord(s: Bytes): (r: Scan)
    ensures r.One? ==> |r.rest| < |s|
  {
    if |s| < 4 then CutShort else ScanWord(U32(s, 0), s[4..])
  }

  function DecodeRecords(s: Bytes): Outcome<File> {
    if s == [] then Parsed(File([], None))
    else
      match ScanRecord(s)
      case Marker(rest) => Parsed(File([], Some(rest)))
      case CutShort => Failed(Truncated)
      case MinInt32 => Panicked
      case One(r, rest) => Prepend([r], DecodeRecords(rest))
  }

  function DecodeFile(data: Bytes): Outcome<File> {
    if data == [] then Failed(Empty)
    else if |data| < 2 then Failed(Truncated)
    else if U16(data, 0) != VERSION then Failed(UnsupportedVersion(U16(data, 0)))
    else DecodeRecords(data[2..])
  }

  lemma ScanContent(r: Record, rest: Bytes)
    requires WellFormedRecord(r)
    ensures ScanWord(Word(r), Content(r) + rest) == One(r, rest)
  {
    var content := Content(r);
    assert (content + rest)[..|content|] == content && (content + rest)[|content|..] == rest;
    if r.Live? { DecodeEncodedBody(r.body); }
  }

  lemma ScanEncodedRecord(r: Record, rest: Bytes)
    requires WellFormedRecord(r)
    ensures ScanRecord(EncodeRecord(r) + rest) == One(r, rest)
  {
    var more := Content(r) + rest;
    assert EncodeRecord(r) + rest == Put32(Word(r)) + more;
    Read32(Word(r), more);
    ScanContent(r, rest);
  }

  lemma DecodeFirst(r: Record, rest: Bytes)
    requires WellFormedRecord(r)
    ensures DecodeRecords(EncodeRecord(r) + rest) == Prepend([r], DecodeRecords(rest))
  {
    ScanEncodedRecord(r, rest);
  }

  lemma {:induction false} DecodeEncodedRecords(rs: seq<Record>, rest: Bytes)
    requires WellFormedRecords(rs)
    ensures DecodeRecords(EncodeRecords(rs) + rest) == Prepend(rs, DecodeRecords(rest))
  {
    if rs == [] {
      assert EncodeRecords(rs) + rest == rest;
      PrependPrepend([], [], DecodeRecords(rest));
    } else {
      var more := EncodeRecords(rs[1..]) + rest;
      assert EncodeRecords(rs) + rest == EncodeRecord(rs[0]) + more;
      DecodeFirst(rs[0], more);
      DecodeEncodedRecords(rs[1..], rest);
      PrependPrepend([rs[0]], rs[1..], DecodeRecords(rest));
      assert [rs[0]] + rs[1..] == rs;
    }
  }

  lemma DecodeTrailer(t: Option<Bytes>)
    ensures DecodeRecords(EncodeTrailer(t)) == Parsed(File([], t))
  {
    if t.Some? {
      var s := EncodeTrailer(t);
      assert U32(s, 0) == 0 && s[4..] == t.value;
    }
  }

  lemma DecodeHeader(s: Bytes)
    ensures DecodeFile(HEADER + s) == DecodeRecords(s)
  {
    assert (HEADER + s)[2..] == s;
  }

  /** Round trip: reading a written file gives back its records, trailer and all. */
  lemma DecodeEncodedFile(f: File)
    requires WellFormedRecords(f.records)
    ensures DecodeFile(EncodeFile(f)) == Parsed(f)
  {
    DecodeHeader(EncodeRecords(f.records) + EncodeTrailer(f.trailer));
    DecodeEncodedRecords(f.records, EncodeTrailer(f.trailer));
    DecodeTrailer(f.trailer);
    assert f.records + [] == f.records;
  }

  lemma EncodeScanned(word: nat, s: Bytes)
    requires word < TWO32 && ScanWord(word, s).One?
    ensures var r := ScanWord(word, s).record; WellFormedRecord(r) && Word(r) == word && s == Content(r) + ScanWord(word, s).rest
  {
    if word < TWO31 { EncodeDecodedBody(s[..word]); }
  }

  lemma EncodeScannedRecord(s: Bytes)
    requires ScanRecord(s).One?
    ensures WellFormedRecord(ScanRecord(s).record)
    ensures s == EncodeRecord(ScanRecord(s).record) + ScanRecord(s).rest
  {
    var word, r, rest := U32(s, 0), ScanRecord(s).record, ScanRecord(s).rest;
    EncodeScanned(word, s[4..]);
    Put32OfU32(s, 0);
    assert s == s[0..4] + s[4..];
    Reassociate(Put32(word), Content(r), rest);
  }

  lemma EncodeScannedWord(s: Bytes)
    requires ScanRecord(s).Marker? || ScanRecord(s).MinInt32?
    ensures |s| >= 4 && s == (if ScanRecord(s).Marker? then [0, 0, 0, 0] else [0x80, 0, 0, 0]) + s[4..]
  {
    Put32OfU32(s, 0);
  }

  lemma ConsRecord(r: Record, rs: seq<Record>, rest: Bytes)
    requires WellFormedRecord(r) && WellFormedRecords(rs)
    ensures WellFormedRecords([r] + rs)
    ensures EncodeRecords([r] + rs) + rest == EncodeRecord(r) + (EncodeRecords(rs) + rest)
  {
    assert ([r] + rs)[1..] == rs;
  }

  lemma {:induction false} EncodeDecodedRecords(s: Bytes, f: File)
    requires DecodeRecords(s) == Parsed(f)
    ensures WellFormedRecords(f.records) && EncodeRecords(f.records) + EncodeTrailer(f.trailer) == s
    decreases |s|
  {
    if s == [] {
    } else if ScanRecord(s).Marker? {
      EncodeScannedWord(s);
    } else {
      EncodeScannedRecord(s);
      var r, rest := ScanRecord(s).record, ScanRecord(s).rest;
      var g := File(f.records[1..], f.trailer);
      assert DecodeRecords(rest) == Parsed(g) && f.records == [r] + g.records;
      EncodeDecodedRecords(rest, g);
      ConsRecord(r, g.records, EncodeTrailer(f.trailer));
    }
  }

  lemma HeaderOfAccepted(data: Bytes)
    requires !DecodeFile(data).Failed?
    ensures data == HEADER + data[2..] && DecodeFile(data) == DecodeRecords(data[2..])
  {
    Put16OfU16(data, 0);
  }

  /** Nothing else is accepted: an input that parses is the encoding of what it parsed to. */
  lemma EncodeDecodedFile(data: Bytes, f: File)
    requires DecodeFile(data) == Parsed(f)
    ensures WellFormedRecords(f.records) && EncodeFile(f) == data
  {
    HeaderOfAccepted(data);
    EncodeDecodedRecords(data[2..], f);
  }

  /** `data` is a header, complete records, and then the length word 0x80000000. */
  ghost predicate HitsMinInt32(data: Bytes, rs: seq<Record>, rest: Bytes) {
    WellFormedRecords(rs) && data == HEADER + (EncodeRecords(rs) + ([0x80, 0, 0, 0] + rest))
  }

  lemma {:induction false} PanicShape(s: Bytes) returns (rs: seq<Record>, rest: Bytes)
    requires DecodeRecords(s).Panicked?
    ensures WellFormedRecords(rs) && s == EncodeRecords(rs) + ([0x80, 0, 0, 0] + rest)
    decreases |s|
  {
    if ScanRecord(s).MinInt32? {
      EncodeScannedWord(s);
      rs, rest := [], s[4..];
    } else {
      EncodeScannedRecord(s);
      var r := ScanRecord(s).record;
      rs, rest := PanicShape(ScanRecord(s).rest);
      ConsRecord(r, rs, [0x80, 0, 0, 0] + rest);
      rs := [r] + rs;
    }
  }

  lemma MinInt32Panics(rest: Bytes)
    ensures DecodeRecords([0x80, 0, 0, 0] + rest).Panicked?
  {
    assert U32([0x80, 0, 0, 0] + rest, 0) == TWO31;
  }

  /** The reader panics exactly on a record length of 0x80000000, which negation leaves negative. */
  lemma PanicsIff(data: Bytes)
    ensures DecodeFile(data).Panicked? <==> exists rs, rest :: HitsMinInt32(data, rs, rest)
  {
    if DecodeFile(data).Panicked? {
      HeaderOfAccepted(data);
      var rs, rest := PanicShape(data[2..]);
      assert HitsMinInt32(data, rs, rest);
    }
    if rs, rest :| HitsMinInt32(data, rs, rest) {
      var word: Bytes := [0x80, 0, 0, 0] + rest;
      DecodeHeader(EncodeRecords(rs) + word);
      DecodeEncodedRecords(rs, word);
      MinInt32Panics(rest);
    }
  }

  lemma Inside(a: Bytes, b: Bytes, word: Bytes, rest: Bytes)
    ensures (a + (b + (word + rest)))[|a| + |b|..|a| + |b| + |word|] == word
  {
  }

  predicate MinInt32At(data: Bytes, i: int) { 0 <= i && i + 4 <= |data| && data[i..i + 4] == [0x80, 0, 0, 0] }

  /** Hence an input without those four bytes in a row never panics. */
  lemma PanicNeedsBytes(data: Bytes)
    requires DecodeFile(data).Panicked?
    ensures exists i :: MinInt32At(data, i)
  {
    PanicsIff(data);
    var rs, rest :| HitsMinInt32(data, rs, rest);
    Inside(HEADER, EncodeRecords(rs), [0x80, 0, 0, 0], rest);
    assert MinInt32At(data, 2 + |EncodeRecords(rs)|);
  }

  /******* Truncated files *******/

  /** A record cut short, anywhere but at its start, is reported as truncated. */
  lemma CutRecord(r: Record, n: nat)
    requires WellFormedRecord(r) && 0 < n < |EncodeRecord(r)|
    ensures DecodeRecords(EncodeRecord(r)[..n]) == Failed(Truncated)
  {
    if n >= 4 {
      var rest := Content(r)[..n - 4];
      assert EncodeRecord(r)[..n] == Put32(Word(r)) + rest;
      Read32(Word(r), rest);
      assert ScanWord(Word(r), rest) == CutShort;
    }
  }

  /** `n` is the end of the first `k` records. */
  ghost predicate Boundary(rs: seq<Record>, k: int, n: int)
    requires WellFormedRecords(rs)
  {
    0 <= k <= |rs| && n == |EncodeRecords(rs[..k])|
  }

  lemma BoundaryCons(rs: seq<Record>, k: int, n: int)
    requires WellFormedRecords(rs) && rs != []
    ensures k > 0 ==> (Boundary(rs, k, n) <==> Boundary(rs[1..], k - 1, n - |EncodeRecord(rs[0])|))
    ensures k <= 0 ==> (Boundary(rs, k, n) <==> k == n == 0)
    ensures Boundary(rs, k, n) && k > 0 ==> n >= |EncodeRecord(rs[0])| && rs[..k] == [rs[0]] + rs[1..][..k - 1]
  {
    if 0 < k <= |rs| {
      assert rs[..k][0] == rs[0] && rs[..k][1..] == rs[1..][..k - 1];
    }
  }

  lemma {:induction false} CutRecords(rs: seq<Record>, n: nat)
    requires WellFormedRecords(rs) && n <= |EncodeRecords(rs)|
    ensures forall k :: Boundary(rs, k, n) ==> DecodeRecords(EncodeRecords(rs)[..n]) == Parsed(File(rs[..k], None))
    ensures (forall k :: !Boundary(rs, k, n)) ==> DecodeRecords(EncodeRecords(rs)[..n]) == Failed(Truncated)
  {
    if rs == [] {
      assert Boundary(rs, 0, 0);
    } else {
      forall k { BoundaryCons(rs, k, n); }
      var r, more := rs[0], EncodeRecords(rs[1..]);
      var first := EncodeRecord(r);
      assert EncodeRecords(rs) == first + more;
      if n == 0 {
        assert Boundary(rs, 0, 0);
      } else if n < |first| {
        assert EncodeRecords(rs)[..n] == first[..n];
        CutRecord(r, n);
      } else {
        var m := n - |first|;
        assert EncodeRecords(rs)[..n] == first + more[..m];
        DecodeFirst(r, more[..m]);
        CutRecords(rs[1..], m);
        if k :| Boundary(rs[1..], k, m) { assert Boundary(rs, k + 1, n); }
      }
    }
  }

  /**
   Every prefix of a file without an end marker, from the header on, either ends on a record
   boundary and reads as exactly the records before it, or is reported as truncated.
   */
  lemma PrefixOfFile(rs: seq<Record>, n: nat)
    requires WellFormedRecords(rs)
    requires 2 + n <= |EncodeFile(File(rs, None))|
    ensures forall k :: Boundary(rs, k, n) ==>
              DecodeFile(EncodeFile(File(rs, None))[..2 + n]) == Parsed(File(rs[..k], None))
    ensures (forall k :: !Boundary(rs, k, n)) ==>
              DecodeFile(EncodeFile(File(rs, None))[..2 + n]) == Failed(Truncated)
  {
    var whole := EncodeFile(File(rs, None));
    assert whole[2..] == EncodeRecords(rs);
    assert whole[..2 + n][2..] == EncodeRecords(rs)[..n];
    CutRecords(rs, n);
  }

  /******* What the caller sees *******/

  const SLASH: byte := 47
  const AT: byte := 64

  /** `enctypeName`; numbers from section 8 of RFC 3961 and its successors. */
  function EnctypeName(id: nat): string {
    match id
    case 1 => "des-cbc-crc"
    case 2 => "des-cbc-md4"
    case 3 => "des-cbc-md5"
    case 5 => "des3-cbc-md5"
    case 7 => "des3-cbc-sha1"
    case 16 => "des3-cbc-sha1-kd"
    case 17 => "aes128-cts-hmac-sha1-96"
    case 18 => "aes256-cts-hmac-sha1-96"
    case 19 => "aes128-cts-hmac-sha256-128"
    case 20 => "aes256-cts-hmac-sha384-192"
    case 23 => "rc4-hmac"
    case 24 => "rc4-hmac-exp"
    case 25 => "camellia128-cts-cmac"
    case 26 => "camellia256-cts-cmac"
    case _ => "etype-" + Format(id)
  }

  /** The metadata kept of an entry: a 32-bit KVNO in the tail, even zero, beats the 8-bit one. */
  function Summary(b: Body): Entry {
    Entry(Glue(b.components, SLASH) + [AT] + b.realm, b.timestamp,
          if |b.tail| >= 4 then U32(b.tail, 0) else b.vno8 as int,
          b.enctype, EnctypeName(b.enctype))
  }

  /** A KVNO written after the key is the one kept, zero included, whatever pads the record; a shorter tail is ignored. */
  lemma TailKvno(b: Body, n: nat, padding: Bytes)
    requires n < TWO32
    ensures b.tail == Put32(n) + padding ==> Summary(b).kvno == n
    ensures |b.tail| < 4 ==> Summary(b).kvno == b.vno8 as int
  {
    Read32(n, padding);
  }

  /** The parts of the principal's name can be told apart in its text form. */
  ghost predicate CleanName(b: Body) {
    b.components != [] && (forall c :: c in b.components ==> SLASH !in c && AT !in c) && AT !in b.realm
  }

  /** The entry tells what the body holds: name and realm, time, key version and key type. */
  ghost predicate Describes(e: Entry, b: Body) {
    && e.timestamp == b.timestamp && e.enctypeId == b.enctype && e.enctypeName == EnctypeName(b.enctype)
    && (|b.tail| < 4 ==> e.kvno == b.vno8 as int)
    && (forall n: nat, padding: Bytes :: n < TWO32 && b.tail == Put32(n) + padding ==> e.kvno == n)
    && (CleanName(b) ==>
          var parts := Split(e.principal, AT);
          |parts| == 2 && Split(parts[0], SLASH) == b.components && parts[1] == b.realm)
  }

  lemma SummaryDescribes(b: Body)
    ensures Describes(Summary(b), b)
  {
    forall n: nat, padding: Bytes | n < TWO32 && b.tail == Put32(n) + padding ensures Summary(b).kvno == n { TailKvno(b, n, padding); }
    if CleanName(b) {
      SplitGlue(b.components, SLASH);
      GlueWithout(b.components, SLASH, AT);
      SplitHead(Glue(b.components, SLASH), AT, b.realm);
      SplitWhole(b.realm, AT);
    }
  }

  function LiveBodies(rs: seq<Record>): seq<Body> {
    if rs == [] then [] else (if rs[0].Live? then [rs[0].body] else []) + LiveBodies(rs[1..])
  }

  lemma {:induction false} LiveEntriesDescribe(rs: seq<Record>)
    ensures |LiveEntries(rs)| == |LiveBodies(rs)|
    ensures forall i :: 0 <= i < |LiveBodies(rs)| ==> Describes(LiveEntries(rs)[i], LiveBodies(rs)[i])
  {
    if rs != [] {
      LiveEntriesDescribe(rs[1..]);
      if rs[0].Live? { SummaryDescribes(rs[0].body); }
    }
  }

  /** The round trip as the caller sees it: one entry for each live record written, in order, telling what was written. */
  lemma CallerRoundTrip(f: File)
    requires WellFormedRecords(f.records)
    ensures var r, bodies := Entries(DecodeFile(EncodeFile(f))), LiveBodies(f.records);
            && r.Parsed? && |r.value| == |bodies|
            && forall i :: 0 <= i < |bodies| ==> Describes(r.value[i], bodies[i])
  {
    DecodeEncodedFile(f);
    LiveEntriesDescribe(f.records);
  }

  /** The number behind a name of section 8 of RFC 3961, RFC 3962, RFC 6803, RFC 8009 and RFC 4757. */
  function NumberOf(name: string): Option<nat> {
    if name == "des-cbc-crc" then Some(1)
    else if name == "des-cbc-md4" then Some(2)
    else if name == "des-cbc-md5" then Some(3)
    else if name == "des3-cbc-md5" then Some(5)
    else if name == "des3-cbc-sha1" then Some(7)
    else if name == "des3-cbc-sha1-kd" then Some(16)
    else if name == "aes128-cts-hmac-sha1-96" then Some(17)
    else if name == "aes256-cts-hmac-sha1-96" then Some(18)
    else if name == "aes128-cts-hmac-sha256-128" then Some(19)
    else if name == "aes256-cts-hmac-sha384-192" then Some(20)
    else if name == "rc4-hmac" then Some(23)
    else if name == "rc4-hmac-exp" then Some(24)
    else if name == "camellia128-cts-cmac" then Some(25)
    else if name == "camellia256-cts-cmac" then Some(26)
    else None
  }

  const NAMED_ENCTYPES: set<nat> := {1, 2, 3, 5, 7, 16, 17, 18, 19, 20, 23, 24, 25, 26}

  lemma OldEnctypeNames(id: nat)
    requires id in {1, 2, 3, 5, 7, 16}
    ensures NumberOf(EnctypeName(id)) == Some(id)
  {
  }

  lemma NewEnctypeNames(id: nat)
    requires id in {17, 18, 19, 20, 23, 24, 25, 26}
    ensures NumberOf(EnctypeName(id)) == Some(id)
  {
  }

  /** A key type without a name is shown by its number. */
  lemma OtherEnctypeNames(id: nat)
    requires id !in NAMED_ENCTYPES
    ensures EnctypeName(id) == "etype-" + Format(id) && NumberOf(EnctypeName(id)).None?
  {
    assert EnctypeName(id)[0] == 'e';
  }

  /** A named key type has its number's name. */
  lemma EnctypeNamesMean(id: nat)
    ensures NumberOf(EnctypeName(id)) == (if id in NAMED_ENCTYPES then Some(id) else None)
  {
    if id in {1, 2, 3, 5, 7, 16} {
      OldEnctypeNames(id);
    } else if id in {17, 18, 19, 20, 23, 24, 25, 26} {
      NewEnctypeNames(id);
    } else {
      OtherEnctypeNames(id);
    }
  }

  /** So no two key types share a name. */
  lemma EnctypeNamesDiffer(a: nat, b: nat)
    requires EnctypeName(a) == EnctypeName(b)
    ensures a == b
  {
    EnctypeNamesMean(a);
    EnctypeNamesMean(b);
    if a !in NAMED_ENCTYPES && b !in NAMED_ENCTYPES {
      OtherEnctypeNames(a);
      OtherEnctypeNames(b);
      assert ("etype-" + Format(a))[6..] == Format(a) && ("etype-" + Format(b))[6..] == Format(b);
      FormatInjective(a, b);
    }
  }

  function LiveEntries(rs: seq<Record>): seq<Entry> {
    if rs == [] then []
    else if rs[0].Live? then [Summary(rs[0].body)] + LiveEntries(rs[1..])
    else LiveEntries(rs[1..])
  }

  function Entries(o: Outcome<File>): Outcome<seq<Entry>> {
    match o
    case Parsed(f) => Parsed(LiveEntries(f.records))
    case Failed(e) => Failed(e)
    case Panicked => Panicked
  }

  lemma {:induction false} LiveEntriesAppend(rs: seq<Record>, r: Record)
    ensures LiveEntries(rs + [r]) == LiveEntries(rs) + (if r.Live? then [Summary(r.body)] else [])
  {
    if rs != [] {
      assert (rs + [r])[1..] == rs[1..] + [r];
      LiveEntriesAppend(rs[1..], r);
    }
  }

  lemma {:induction false} LiveEntriesSize(rs: seq<Record>)
    requires WellFormedRecords(rs)
    ensures 21 * |LiveEntries(rs)| <= |EncodeRecords(rs)|
  {
    if rs != [] { LiveEntriesSize(rs[1..]); }
  }

  /** A parsed entry accounts for at least 21 bytes of the input. */
  lemma EntriesBound(data: Bytes)
    requires Entries(DecodeFile(data)).Parsed?
    ensures 21 * |Entries(DecodeFile(data)).value| + 2 <= |data|
  {
    var f := DecodeFile(data).value;
    EncodeDecodedFile(data, f);
    LiveEntriesSize(f.records);
  }

  /******* The source's loops *******/

  /** Components read before those still to be decoded. */
  function After(comps: seq<Bytes>, r: Option<(seq<Bytes>, Bytes)>): Option<(seq<Bytes>, Bytes)> {
    match r
    case None => None
    case Some((cs, rest)) => Some((comps + cs, rest))
  }

  lemma AfterFirst(comps: seq<Bytes>, c: Bytes, r: Option<(seq<Bytes>, Bytes)>)
    ensures After(comps, After([c], r)) == After(comps + [c], r) && After([], r) == r
  {
    if r.Some? {
      Reassociate(comps, [c], r.value.0);
      assert [] + r.value.0 == r.value.0;
    }
  }

  /** The component loop of `parseEntry`: the components and the new cursor. */
  method ReadComponents(body: Bytes, start: nat, n: nat) returns (r: Option<(seq<Bytes>, nat)>)
    requires start <= |body|
    ensures r.Some? ==> r.value.1 <= |body|
    ensures DecodeComponents(body[start..], n) ==
            match r case None => None case Some((cs, off)) => Some((cs, body[off..]))
  {
    var off: nat, comps := start, [];
    AfterFirst([], [], DecodeComponents(body[start..], n));
    for i := 0 to n
      invariant off <= |body|
      invariant DecodeComponents(body[start..], n) == After(comps, DecodeComponents(body[off..], n - i))
    {
      var counted := ReadCountedString(body[off..]);
      if counted.None? { return None; }
      var (c, used) := counted.value;
      assert body[off..][used..] == body[off + used..];
      AfterFirst(comps, c, DecodeComponents(body[off + used..], n - i - 1));
      off := off + used;
      comps := comps + [c];
    }
    assert comps + [] == comps;
    r := Some((comps, off));
  }

  lemma KeyPartAt(body: Bytes, off: nat, realm: Bytes, comps: seq<Bytes>)
    requires off <= |body|
    ensures DecodeKeyPart(realm, comps, body[off..]) ==
            if off + 13 > |body| || off + 13 + U16(body, off + 11) > |body| then None
            else
              var end := off + 13 + U16(body, off + 11);
              Some(Body(realm, comps, U32(body, off), U32(body, off + 4), body[off + 8], U16(body, off + 9),
                        body[off + 13..end], body[end..]))
  {
    if off + 13 <= |body| && off + 13 + U16(body, off + 11) <= |body| {
      var n := 13 + U16(body, off + 11);
      assert body[off..][13..n] == body[off + 13..off + n] && body[off..][n..] == body[off + n..];
    }
  }

  /** The second half of `parseEntry`, from the name type on. */
  method ParseKeyPart(body: Bytes, start: nat, realm: Bytes, comps: seq<Bytes>) returns (r: Option<Entry>)
    requires start <= |body|
    ensures r == match DecodeKeyPart(realm, comps, body[start..]) case None => None case Some(b) => Some(Summary(b))
  {
    KeyPartAt(body, start, realm, comps);
    var off := start;
    var principal := Glue(comps, SLASH) + [AT] + realm;
    if off + 4 > |body| { return None; }
    off := off + 4;
    if off + 4 > |body| { return None; }
    var timestamp := U32(body, off);
    off := off + 4;
    if off + 1 > |body| { return None; }
    var vno8 := body[off];
    off := off + 1;
    if off + 2 > |body| { return None; }
    var enctypeId := U16(body, off);
    off := off + 2;
    if off + 2 > |body| { return None; }
    var keyLen := U16(body, off);
    off := off + 2;
    if off + keyLen > |body| { return None; }
    off := off + keyLen;
    var kvno := if |body| - off >= 4 then U32(body, off) else vno8 as int;
    r := Some(Entry(principal, timestamp, kvno, enctypeId, EnctypeName(enctypeId)));
  }

  /** `parseEntry`; None is its ErrTruncated. */
  method ParseEntry(body: Bytes) returns (r: Option<Entry>)
    ensures r == match DecodeBody(body) case None => None case Some(b) => Some(Summary(b))
  {
    if 2 > |body| { return None; }
    var numComps := U16(body, 0);
    var counted := ReadCountedString(body[2..]);
    if counted.None? { return None; }
    var (realm, used) := counted.value;
    assert body[2..][used..] == body[2 + used..];
    var read := ReadComponents(body, 2 + used, numComps);
    if read.None? { return None; }
    var (comps, off) := read.value;
    r := ParseKeyPart(body, off, realm, comps);
  }

  /** `-x` on an int32: the least value is its own negation. */
  function Negate32(x: int): int
    requires -TWO31 <= x < TWO31
  {
    if x == -TWO31 then x else -x
  }

  /** What one round of the loop in `Parse` finds at `pos`, and where it leaves the cursor. */
  datatype Reading = AtMarker | CutOff | Panics | Skipped(next: nat) | Read(entry: Entry, next: nat)

  /** The body of the loop in `Parse`. */
  method ReadRecord(data: Bytes, pos: nat) returns (r: Reading)
    requires pos < |data|
    ensures match ScanRecord(data[pos..])
            case Marker(_) => r == AtMarker
            case CutShort => r == CutOff
            case MinInt32 => r == Panics
            case One(Hole(_), rest) => r.Skipped? && pos < r.next <= |data| && rest == data[r.next..]
            case One(Live(b), rest) =>
              r.Read? && pos < r.next <= |data| && rest == data[r.next..] && r.entry == Summary(b)
  {
    if pos + 4 > |data| { return CutOff; }
    var word := U32(data, pos);
    var rawLen: int := if word >= TWO31 then word - TWO32 else word;
    var start := pos + 4;
    assert word == U32(data[pos..], 0) && data[pos..][4..] == data[start..];
    if rawLen == 0 { return AtMarker; }
    var recLen := if rawLen < 0 then Negate32(rawLen) else rawLen;
    if start + recLen > |data| { return CutOff; }
    if recLen < 0 { return Panics; }
    var end := start + recLen;
    var body := data[start..end];
    assert body == data[start..][..recLen] && data[start..][recLen..] == data[end..];
    if rawLen < 0 { return Skipped(end); }
    var e := ParseEntry(body);
    r := if e.None? then CutOff else Read(e.value, end);
  }

  /** `Parse`. */
  method Parse(data: Bytes) returns (r: Outcome<seq<Entry>>)
    ensures r == Entries(DecodeFile(data))
  {
    if |data| == 0 { return Failed(Empty); }
    if |data| < 2 { return Failed(Truncated); }
    var version := U16(data, 0);
    if version != VERSION { return Failed(UnsupportedVersion(version)); }
    var pos: nat, entries := 2, [];
    ghost var done, whole: Outcome<File> := [], DecodeFile(data);
    PrependPrepend([], [], DecodeRecords(data[2..]));
    while pos < |data|
      invariant pos <= |data|
      invariant entries == LiveEntries(done)
      invariant whole == Prepend(done, DecodeRecords(data[pos..]))
    {
      ghost var scan := ScanRecord(data[pos..]);
      var reading := ReadRecord(data, pos);
      match reading {
        case AtMarker => break;
        case CutOff => return Failed(Truncated);
        case Panics => return Panicked;
        case Skipped(next) => pos := next;
        case Read(e, next) =>
          pos := next;
          entries := entries + [e];
      }
      Step(done, scan.record, data[pos..]);
      done := done + [scan.record];
    }
    assert done + [] == done;
    r := Parsed(entries);
  }

  lemma Step(done: seq<Record>, r: Record, rest: Bytes)
    ensures Prepend(done, Prepend([r], DecodeRecords(rest))) == Prepend(done + [r], DecodeRecords(rest))
    ensures LiveEntries(done + [r]) == LiveEntries(done) + (if r.Live? then [Summary(r.body)] else [])
  {
    LiveEntriesAppend(done, r);
    PrependPrepend(done, [r], DecodeRecords(rest));
  }

  /** `MaxKvno`: the largest key version, 0 for no entries. */
  method MaxKvno(entries: seq<Entry>) returns (max: nat)
    ensures forall e :: e in entries ==> e.kvno <= max
    ensures max == 0 || exists e :: e in entries && e.kvno == max
  {
    max := 0;
    for i := 0 to |entries|
      invariant forall j :: 0 <= j < i ==> entries[j].kvno <= max
      invariant max == 0 || exists j :: 0 <= j < i && entries[j].kvno == max
    {
      if entries[i].kvno > max { max := entries[i].kvno; }
    }
  }

  ghost predicate StrictlyAscending(names: seq<string>) {
    Sorted(names, StringLe) && Distinct(names)
  }

  /** `Enctypes`: each name once, in order. */
  method Enctypes(entries: seq<Entry>) returns (out: seq<string>)
    ensures StrictlyAscending(out)
    ensures forall name :: name in out <==> exists e :: e in entries && e.enctypeName == name
  {
    var seen: set<string> := {};
    for i := 0 to |entries|
      invariant seen == set e | e in entries[..i] :: e.enctypeName
    {
      assert entries[..i + 1] == entries[..i] + [entries[i]];
      seen := seen + {entries[i].enctypeName};
    }
    assert entries[..|entries|] == entries;
    out := [];
    var todo := seen;
    while todo != {}
      invariant todo <= seen && (forall name :: name in out <==> name in seen - todo)
      invariant Distinct(out)
      decreases todo
    {
      var name :| name in todo;
      assert name !in out;
      out := out + [name];
      todo := todo - {name};
    }
    StringLeOrders();
    SortDistinct(out, StringLe);
    SortSorts(out, StringLe);
    SortMembers(out, StringLe);
    out := Sort(out, StringLe);
  }
}
