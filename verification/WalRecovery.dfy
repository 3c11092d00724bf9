/** What Replay recovers: round trips, every crash cut, arbitrary bytes, and where recovery falls short. */
module WalRecovery {

  import opened ByteStrings
  import opened WriteAheadLog

  // ---------------------------------------------------------------------------------------------
  // Whole records
  // ---------------------------------------------------------------------------------------------

  lemma FieldsOf(crc: Bytes -> U32, r: Record, tail: Bytes)
    ensures var b := Encode(crc, r) + tail;
            && b[..4] == PutUint(crc(Body(r)), 4)
            && b[4] == r.op
            && b[5..9] == PutUint(|r.key|, 4)
            && b[9..13] == PutUint(|r.value|, 4)
            && b[4..|Encode(crc, r)|] == Body(r)
            && b[13..|Encode(crc, r)|] == r.key + r.value
  {
    var b := Encode(crc, r) + tail;
    var crcField, keyField, valField := PutUint(crc(Body(r)), 4), PutUint(|r.key|, 4), PutUint(|r.value|, 4);
    assert b == crcField + ([r.op] + (keyField + (valField + (r.key + r.value + tail))));
  }

  lemma ReadEncoded(crc: Bytes -> U32, r: Record, tail: Bytes)
    requires WellFormed(r)
    ensures ReadRecord(crc, Encode(crc, r) + tail) == Valid(r, |Encode(crc, r)|)
  {
    FieldsOf(crc, r, tail);
    U32RoundTrip(crc(Body(r)));
    U32RoundTrip(|r.key|);
    U32RoundTrip(|r.value|);
  }

  /** A log is read back record by record, and the bytes after it are scanned as if they stood alone. */
  lemma {:induction false} ScanEncoded(crc: Bytes -> U32, rs: seq<Record>, tail: Bytes)
    requires AllWellFormed(rs)
    ensures var rest := Scan(crc, tail);
            Scan(crc, EncodeAll(crc, rs) + tail)
            == Scanned(rs + rest.records, |EncodeAll(crc, rs)| + rest.used, rest.stop)
  {
    hide ReadRecord, Encode;
    if rs == [] {
      assert EncodeAll(crc, rs) + tail == tail;
      assert rs + Scan(crc, tail).records == Scan(crc, tail).records;
    } else {
      var first, more := Encode(crc, rs[0]), EncodeAll(crc, rs[1..]) + tail;
      ConcatAssociative(first, EncodeAll(crc, rs[1..]), tail);
      ReadEncoded(crc, rs[0], more);
      ConcatSplit(first, more);
      ScanEncoded(crc, rs[1..], tail);
      ConcatAssociative([rs[0]], rs[1..], Scan(crc, tail).records);
      assert [rs[0]] + rs[1..] == rs;
    }
  }

  lemma {:induction false} EncodeAllAppend(crc: Bytes -> U32, rs: seq<Record>, more: seq<Record>)
    ensures EncodeAll(crc, rs + more) == EncodeAll(crc, rs) + EncodeAll(crc, more)
  {
    if rs == [] {
      assert rs + more == more;
    } else {
      assert (rs + more)[1..] == rs[1..] + more;
      EncodeAllAppend(crc, rs[1..], more);
    }
  }

  // ---------------------------------------------------------------------------------------------
  // Crash cuts
  // ---------------------------------------------------------------------------------------------

  function Size(r: Record): nat {
    HEADER_SIZE + |r.key| + |r.value|
  }

  /** How many records lie wholly before byte c. */
  function WholeBefore(rs: seq<Record>, c: nat): (n: nat)
    ensures n <= |rs|
  {
    if rs == [] || c < Size(rs[0]) then 0 else 1 + WholeBefore(rs[1..], c - Size(rs[0]))
  }

  /** How many bytes of the next record lie before byte c. */
  function TornBytes(rs: seq<Record>, c: nat): (torn: nat)
    ensures torn <= c
  {
    if rs == [] || c < Size(rs[0]) then c else TornBytes(rs[1..], c - Size(rs[0]))
  }

  function StopAt(torn: nat): Stop {
    if torn == 0 then EndOfFile
    else if torn < HEADER_SIZE then TornHeader
    else if torn == HEADER_SIZE then MissingPayload
    else TornPayload
  }

  lemma {:induction false} CutSplits(crc: Bytes -> U32, rs: seq<Record>, c: nat)
    requires c <= |EncodeAll(crc, rs)|
    ensures var n, torn := WholeBefore(rs, c), TornBytes(rs, c);
            && (n == |rs| ==> torn == 0)
            && (n < |rs| ==> torn < |Encode(crc, rs[n])|)
            && EncodeAll(crc, rs)[..c]
               == EncodeAll(crc, rs[..n]) + (if n < |rs| then Encode(crc, rs[n])[..torn] else [])
  {
    hide Encode;
    if rs == [] {
    } else if c < Size(rs[0]) {
      assert rs[..0] == [];
      assert EncodeAll(crc, rs)[..c] == Encode(crc, rs[0])[..c];
    } else {
      var rest, d := rs[1..], c - Size(rs[0]);
      CutSplits(crc, rest, d);
      var n := WholeBefore(rest, d);
      assert rs[..n + 1] == [rs[0]] + rest[..n];
      assert rs[..n + 1][1..] == rest[..n];
      assert EncodeAll(crc, rs)[..c] == Encode(crc, rs[0]) + EncodeAll(crc, rest)[..d];
    }
  }

  lemma ScanTorn(crc: Bytes -> U32, r: Record, torn: nat)
    requires Loggable(r) && torn < |Encode(crc, r)|
    ensures Scan(crc, Encode(crc, r)[..torn]) == Scanned([], 0, StopAt(torn))
  {
    hide Uint, PutUint, Encode;
    var b := Encode(crc, r)[..torn];
    FieldsOf(crc, r, []);
    assert Encode(crc, r) + [] == Encode(crc, r);
    if HEADER_SIZE <= torn {
      assert b[5..9] == Encode(crc, r)[5..9] && b[9..13] == Encode(crc, r)[9..13];
      U32RoundTrip(|r.key|);
      U32RoundTrip(|r.value|);
    }
  }

  lemma ScanEmpty(crc: Bytes -> U32)
    ensures Scan(crc, []) == Scanned([], 0, EndOfFile)
  {
  }

  /**
   * Replay after a crash that cut the log at byte c: it delivers exactly the records wholly before
   * the cut; it fails only when the cut is just after a header; and it leaves the file as exactly
   * the encoding of those records except when the cut left part of a header or a bare header behind.
   */
  lemma CrashCut(crc: Bytes -> U32, rs: seq<Record>, c: nat)
    requires AllLoggable(rs) && c <= |EncodeAll(crc, rs)|
    ensures var b, n, torn := EncodeAll(crc, rs)[..c], WholeBefore(rs, c), TornBytes(rs, c);
            && Scan(crc, b) == Scanned(rs[..n], c - torn, StopAt(torn))
            && (Recovered(crc, b) == EncodeAll(crc, rs[..n]) <==> torn == 0 || HEADER_SIZE < torn)
  {
    hide Encode, EncodeAll, ReadRecord, WholeBefore, TornBytes;
    var b, n, torn := EncodeAll(crc, rs)[..c], WholeBefore(rs, c), TornBytes(rs, c);
    CutSplits(crc, rs, c);
    ScanEmpty(crc);
    hide Scan;
    var rest := if n < |rs| then Encode(crc, rs[n])[..torn] else [];
    if n < |rs| {
      ScanTorn(crc, rs[n], torn);
    }
    ScanEncoded(crc, rs[..n], rest);
    assert rs[..n] + Scan(crc, rest).records == rs[..n];
    assert b[..c - torn] == EncodeAll(crc, rs[..n]);
  }

  /** Where recovery restored a clean log, records appended afterwards are all read back. */
  lemma AppendAfterCleanRecovery(crc: Bytes -> U32, rs: seq<Record>, c: nat, more: seq<Record>)
    requires AllLoggable(rs) && c <= |EncodeAll(crc, rs)| && AllLoggable(more)
    requires TornBytes(rs, c) == 0 || HEADER_SIZE < TornBytes(rs, c)
    ensures var file := Recovered(crc, EncodeAll(crc, rs)[..c]) + EncodeAll(crc, more);
            Scan(crc, file) == Scanned(rs[..WholeBefore(rs, c)] + more, |file|, EndOfFile)
  {
    hide Encode, EncodeAll, ReadRecord, Scan, Recovered;
    CrashCut(crc, rs, c);
    var kept := rs[..WholeBefore(rs, c)];
    EncodeAllAppend(crc, kept, more);
    var file := EncodeAll(crc, kept + more);
    ScanEncoded(crc, kept + more, []);
    ScanEmpty(crc);
    assert file + [] == file;
    assert kept + more + [] == kept + more;
  }

  lemma ScanUnknownOp(crc: Bytes -> U32, b: Bytes)
    requires HEADER_SIZE <= |b| && !KnownOp(b[4])
    ensures Scan(crc, b) == Scanned([], 0, UnknownOp)
  {
  }

  /**
   * A torn header is not truncated: after a cut one to four bytes into a record, Replay succeeds,
   * and a record appended next is misread and then cut off by the following Replay whenever one
   * byte of its checksum is not an opcode.
   */
  lemma AppendAfterTornHeader(crc: Bytes -> U32, rs: seq<Record>, c: nat, r: Record)
    requires AllLoggable(rs) && c <= |EncodeAll(crc, rs)|
    requires 1 <= TornBytes(rs, c) <= 4
    requires !KnownOp(Encode(crc, r)[4 - TornBytes(rs, c)])
    ensures var n, cut := WholeBefore(rs, c), EncodeAll(crc, rs)[..c];
            var file := Recovered(crc, cut) + Encode(crc, r);
            && Scan(crc, cut).stop == TornHeader
            && Scan(crc, file).records == rs[..n]
            && Recovered(crc, file) == EncodeAll(crc, rs[..n])
  {
    var n, cut, torn := WholeBefore(rs, c), EncodeAll(crc, rs)[..c], TornBytes(rs, c);
    hide Encode, EncodeAll, Scan, ReadRecord;
    CrashCut(crc, rs, c);
    CutSplits(crc, rs, c);
    var kept, rest := EncodeAll(crc, rs[..n]), Encode(crc, rs[n])[..torn] + Encode(crc, r);
    ConcatAssociative(kept, Encode(crc, rs[n])[..torn], Encode(crc, r));
    ScanUnknownOp(crc, rest);
    ScanEncoded(crc, rs[..n], rest);
    assert rs[..n] + [] == rs[..n];
    ConcatSplit(kept, rest);
  }

  /** A record that no torn header can be continued by: its opcode stands alone among its later bytes. */
  const PROBE := Record(OP_SET, [0, 0, 0, 0, 0], [])

  lemma ProbeBytes(crc: Bytes -> U32)
    ensures Loggable(PROBE) && |Encode(crc, PROBE)| == 18
    ensures var e := Encode(crc, PROBE);
            e[4] == OP_SET && forall i :: 5 <= i < 18 ==> e[i] != OP_SET
  {
    var e := Encode(crc, PROBE);
    FieldsOf(crc, PROBE, []);
    assert e + [] == e;
    assert PutUint(5, 4) == [5, 0, 0, 0] by {
      assert PutUint(5 / 256, 3) == [0, 0, 0];
    }
    assert PutUint(0, 4) == [0, 0, 0, 0];
    hide Encode, PutUint;
    forall i | 5 <= i < 18
      ensures e[i] != OP_SET
    {
      assert i < 9 ==> e[i] == e[5..9][i - 5];
      assert 9 <= i < 13 ==> e[i] == e[9..13][i - 9];
      assert 13 <= i ==> e[i] == e[13..18][i - 13];
    }
  }

  /** Appended after part of a header or a bare header, the probe is not read back. */
  lemma TornHeaderLosesProbe(crc: Bytes -> U32, torn: Bytes)
    requires 1 <= |torn| <= HEADER_SIZE
    ensures Scan(crc, torn + Encode(crc, PROBE)).records != [PROBE]
  {
    hide Scan, ReadRecord, Encode;
    var e := Encode(crc, PROBE);
    var b, t := torn + e, |torn|;
    if Scan(crc, b).records == [PROBE] {
      FirstRecord(crc, b);
      ReadSound(crc, b);
      SetSize(crc, b);
      assert e == b[..18];
      assert e[4 + t] == b[4 + t] == e[4];
      ProbeBytes(crc);
    }
  }

  lemma FirstRecord(crc: Bytes -> U32, b: Bytes)
    requires Scan(crc, b).records != []
    ensures ReadRecord(crc, b).Valid? && ReadRecord(crc, b).rec == Scan(crc, b).records[0]
  {
    hide ReadRecord;
  }

  lemma SetSize(crc: Bytes -> U32, b: Bytes)
    requires ReadRecord(crc, b).Valid? && ReadRecord(crc, b).rec.op == OP_SET
    ensures ReadRecord(crc, b).size == Size(ReadRecord(crc, b).rec)
  {
    hide Uint;
  }

  /** Every list of records appended after the recovered log is read back behind the surviving ones. */
  ghost predicate AppendsReadBack(crc: Bytes -> U32, file: Bytes, kept: seq<Record>) {
    forall more | AllLoggable(more) :: Scan(crc, file + EncodeAll(crc, more)).records == kept + more
  }

  /**
   * After a cut, appending and replaying gives old plus new, for everything one may append, if and only
   * if the cut left neither part of a header nor a bare header behind.
   */
  lemma AppendAfterCutExact(crc: Bytes -> U32, rs: seq<Record>, c: nat)
    requires AllLoggable(rs) && c <= |EncodeAll(crc, rs)|
    ensures AppendsReadBack(crc, Recovered(crc, EncodeAll(crc, rs)[..c]), rs[..WholeBefore(rs, c)])
       <==> TornBytes(rs, c) == 0 || HEADER_SIZE < TornBytes(rs, c)
  {
    hide Encode, EncodeAll, ReadRecord, Scan, Recovered, WholeBefore, TornBytes, Loggable;
    if TornBytes(rs, c) == 0 || HEADER_SIZE < TornBytes(rs, c) {
      forall more | AllLoggable(more)
        ensures Scan(crc, Recovered(crc, EncodeAll(crc, rs)[..c]) + EncodeAll(crc, more)).records
             == rs[..WholeBefore(rs, c)] + more
      {
        AppendAfterCleanRecovery(crc, rs, c, more);
      }
    } else {
      ProbeLost(crc, rs, c);
      ProbeBytes(crc);
      assert AllLoggable([PROBE]);
    }
  }

  lemma ProbeLost(crc: Bytes -> U32, rs: seq<Record>, c: nat)
    requires AllLoggable(rs) && c <= |EncodeAll(crc, rs)| && 1 <= TornBytes(rs, c) <= HEADER_SIZE
    ensures Scan(crc, Recovered(crc, EncodeAll(crc, rs)[..c]) + EncodeAll(crc, [PROBE])).records
         != rs[..WholeBefore(rs, c)] + [PROBE]
  {
    var n, torn := WholeBefore(rs, c), TornBytes(rs, c);
    var cut, kept := EncodeAll(crc, rs)[..c], rs[..n];
    OneRecord(crc, PROBE);
    CrashCut(crc, rs, c);
    CutSplits(crc, rs, c);
    assert Recovered(crc, cut) == cut;
    hide Encode, EncodeAll, ReadRecord, Scan, Recovered, WholeBefore, TornBytes;
    var left := Encode(crc, rs[n])[..torn];
    ConcatAssociative(EncodeAll(crc, kept), left, Encode(crc, PROBE));
    ScanEncoded(crc, kept, left + Encode(crc, PROBE));
    TornHeaderLosesProbe(crc, left);
    var rest := Scan(crc, left + Encode(crc, PROBE)).records;
    ConcatSplit(kept, rest);
    ConcatSplit(kept, [PROBE]);
  }

  lemma OneRecord(crc: Bytes -> U32, r: Record)
    ensures EncodeAll(crc, [r]) == Encode(crc, r)
  {
    hide Encode;
    assert EncodeAll(crc, [r]) == Encode(crc, r) + EncodeAll(crc, [r][1..]);
  }

  // ---------------------------------------------------------------------------------------------
  // Arbitrary bytes
  // ---------------------------------------------------------------------------------------------

  /** Bytes of the scanned prefix that Replay drops: the values some deletes carry. */
  function DroppedBytes(crc: Bytes -> U32, b: Bytes): nat
    decreases |b|
  {
    match ReadRecord(crc, b)
    case Stopped(_) => 0
    case Valid(rec, size) => size - Size(rec) + DroppedBytes(crc, b[size..])
  }

  /** One accepted record re-encodes to its own bytes, unless it is a delete that carried a value. */
  lemma ReadSound(crc: Bytes -> U32, b: Bytes)
    requires ReadRecord(crc, b).Valid?
    ensures var s := ReadRecord(crc, b);
            && WellFormed(s.rec)
            && Size(s.rec) <= s.size
            && (Size(s.rec) == s.size ==> Encode(crc, s.rec) == b[..s.size])
  {
    hide Uint, PutUint;
    var Valid(rec, size) := ReadRecord(crc, b);
    U32Bound(b[..4]);
    U32Bound(b[5..9]);
    U32Bound(b[9..13]);
    if Size(rec) == size {
      assert rec.key + rec.value == b[13..size];
      assert Body(rec) == b[4..size];
    }
  }

  /**
   * On any bytes, re-encoding what Replay delivers gives back the scanned prefix exactly when no
   * delete carried a value; otherwise it is shorter by the dropped bytes.
   */
  lemma {:induction false} ScanSound(crc: Bytes -> U32, b: Bytes)
    ensures var s := Scan(crc, b);
            && AllWellFormed(s.records)
            && |EncodeAll(crc, s.records)| == s.used - DroppedBytes(crc, b)
            && (EncodeAll(crc, s.records) == b[..s.used] <==> DroppedBytes(crc, b) == 0)
    decreases |b|
  {
    hide ReadRecord, Encode;
    if ReadRecord(crc, b).Valid? {
      var Valid(rec, size) := ReadRecord(crc, b);
      ReadSound(crc, b);
      ScanSound(crc, b[size..]);
      var s, rest := Scan(crc, b), Scan(crc, b[size..]);
      assert s.records[1..] == rest.records;
      assert EncodeAll(crc, s.records) == Encode(crc, rec) + EncodeAll(crc, rest.records);
      assert b[..s.used] == b[..size] + b[size..][..rest.used];
    }
  }

  /** Replay stops no earlier than it must: a log that starts the file is wholly delivered. */
  lemma ScanMaximal(crc: Bytes -> U32, b: Bytes, rs: seq<Record>)
    requires AllWellFormed(rs) && EncodeAll(crc, rs) <= b
    ensures rs <= Scan(crc, b).records && |EncodeAll(crc, rs)| <= Scan(crc, b).used
  {
    var n := |EncodeAll(crc, rs)|;
    ScanEncoded(crc, rs, b[n..]);
    assert b == EncodeAll(crc, rs) + b[n..];
  }

  lemma ReadOfPrefix(crc: Bytes -> U32, b: Bytes, n: nat)
    requires ReadRecord(crc, b).Valid? && ReadRecord(crc, b).size <= n <= |b|
    ensures ReadRecord(crc, b[..n]) == ReadRecord(crc, b)
  {
    hide Uint;
    var size := ReadRecord(crc, b).size;
    var p := b[..n];
    assert p[5..9] == b[5..9] && p[9..13] == b[9..13] && p[..4] == b[..4];
    assert p[4..size] == b[4..size] && p[HEADER_SIZE..size] == b[HEADER_SIZE..size];
  }

  lemma {:induction false} ScanOfPrefix(crc: Bytes -> U32, b: Bytes)
    ensures var s := Scan(crc, b);
            Scan(crc, b[..s.used]) == Scanned(s.records, s.used, EndOfFile)
    decreases |b|
  {
    if ReadRecord(crc, b).Valid? {
      var Valid(rec, size) := ReadRecord(crc, b);
      var s, rest := Scan(crc, b), Scan(crc, b[size..]);
      var p := b[..s.used];
      ReadOfPrefix(crc, b, s.used);
      hide ReadRecord;
      ScanOfPrefix(crc, b[size..]);
      assert p[size..] == b[size..][..rest.used];
    }
  }

  /** A second Replay delivers the same records and changes nothing more. */
  lemma ReplayTwice(crc: Bytes -> U32, b: Bytes)
    ensures Scan(crc, Recovered(crc, b)).records == Scan(crc, b).records
    ensures Recovered(crc, Recovered(crc, b)) == Recovered(crc, b)
  {
    ScanOfPrefix(crc, b);
  }

  // ---------------------------------------------------------------------------------------------
  // Damaged records
  // ---------------------------------------------------------------------------------------------

  /** How long a record its header says it is. */
  function ClaimedSize(b: Bytes): nat
    requires HEADER_SIZE <= |b|
  {
    HEADER_SIZE + Uint(b[5..9]) + Uint(b[9..13])
  }

  /**
   * A whole header and then damage: an opcode that is none, a payload that is cut short, or a whole payload
   * whose checksum does not match. Whatever follows the record does not matter.
   */
  predicate Damaged(crc: Bytes -> U32, b: Bytes) {
    && HEADER_SIZE <= |b|
    && (|| !KnownOp(b[4])
        || HEADER_SIZE < |b| < ClaimedSize(b)
        || (ClaimedSize(b) <= |b| && crc(b[4..ClaimedSize(b)]) != Uint(b[..4])))
  }

  lemma ScanDamaged(crc: Bytes -> U32, b: Bytes)
    requires Damaged(crc, b)
    ensures Scan(crc, b).records == [] && Scan(crc, b).used == 0 && Scan(crc, b).stop.Truncates()
    ensures KnownOp(b[4]) && ClaimedSize(b) <= |b| ==> Scan(crc, b).stop == BadChecksum
  {
    hide Uint;
  }

  lemma CleanAppends(crc: Bytes -> U32, rs: seq<Record>)
    requires AllWellFormed(rs)
    ensures AppendsReadBack(crc, EncodeAll(crc, rs), rs)
  {
    hide Encode, EncodeAll, ReadRecord, Scan, Loggable, WellFormed;
    forall more | AllLoggable(more)
      ensures Scan(crc, EncodeAll(crc, rs) + EncodeAll(crc, more)).records == rs + more
    {
      LoggableWellFormed(more);
      ScanEncoded(crc, rs, EncodeAll(crc, more));
      ScanEncoded(crc, more, []);
      ScanEmpty(crc);
      assert EncodeAll(crc, more) + [] == EncodeAll(crc, more) && more + [] == more;
    }
  }

  lemma LoggableWellFormed(rs: seq<Record>)
    requires AllLoggable(rs)
    ensures AllWellFormed(rs)
  {
  }

  /**
   * A damaged record anywhere in the log: Replay delivers the records before it, leaves the file as exactly
   * their encoding, and everything appended afterwards is read back behind them.
   */
  lemma DamageTruncated(crc: Bytes -> U32, rs: seq<Record>, bad: Bytes)
    requires AllWellFormed(rs) && Damaged(crc, bad)
    ensures var file := EncodeAll(crc, rs) + bad;
            && Scan(crc, file).records == rs
            && Recovered(crc, file) == EncodeAll(crc, rs)
            && AppendsReadBack(crc, Recovered(crc, file), rs)
  {
    ScanDamaged(crc, bad);
    ScanEncoded(crc, rs, bad);
    CleanAppends(crc, rs);
    hide Encode, EncodeAll, ReadRecord, Scan, Damaged, AppendsReadBack;
    assert rs + [] == rs;
    ConcatSplit(EncodeAll(crc, rs), bad);
  }

  // ---------------------------------------------------------------------------------------------
  // The format, written out
  // ---------------------------------------------------------------------------------------------

  /** A set as bytes: checksum, opcode, key length, value length, key, value. */
  lemma KnownSet(crc: Bytes -> U32)
    ensures var body: Bytes := [0x53, 1, 0, 0, 0, 2, 0, 0, 0, 0x6b, 0x76, 0x77];
            && Body(Record(OP_SET, [0x6b], [0x76, 0x77])) == body
            && (crc(body) == 0x04030201 ==>
                  Encode(crc, Record(OP_SET, [0x6b], [0x76, 0x77])) == [0x01, 0x02, 0x03, 0x04] + body)
  {
    LittleEndian32(1, 2, 3, 4);
    LittleEndian32(1, 0, 0, 0);
    LittleEndian32(2, 0, 0, 0);
    hide PutUint, Uint;
  }

  lemma KnownDelete(crc: Bytes -> U32)
    ensures var body: Bytes := [0x44, 1, 0, 0, 0, 0, 0, 0, 0, 0x6b];
            && Body(Record(OP_DELETE, [0x6b], [])) == body
            && (crc(body) == 0x04030201 ==>
                  Encode(crc, Record(OP_DELETE, [0x6b], [])) == [0x01, 0x02, 0x03, 0x04] + body)
  {
    LittleEndian32(1, 2, 3, 4);
    LittleEndian32(1, 0, 0, 0);
    LittleEndian32(0, 0, 0, 0);
    hide PutUint, Uint;
  }
}
