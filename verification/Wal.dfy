/** The write-ahead log: record format, Append, and a Replay that recovers from arbitrary bytes. */
module WriteAheadLog {

  import opened ByteStrings

  const OP_SET: Byte := 0x53
  const OP_DELETE: Byte := 0x44
  const HEADER_SIZE := 13

  datatype Record = Record(op: Byte, key: Bytes, value: Bytes)

  predicate KnownOp(op: Byte) {
    op == OP_SET || op == OP_DELETE
  }

  /** The records that survive a round trip: a delete's value is not read back. */
  predicate WellFormed(r: Record) {
    && KnownOp(r.op)
    && |r.key| < U32_SIZE
    && |r.value| < U32_SIZE
    && (r.op == OP_DELETE ==> r.value == [])
  }

  /** What DB.Set and DB.Delete append. */
  predicate Loggable(r: Record) {
    WellFormed(r) && r.key != []
  }

  ghost predicate AllWellFormed(rs: seq<Record>) {
    forall i :: 0 <= i < |rs| ==> WellFormed(rs[i])
  }

  ghost predicate AllLoggable(rs: seq<Record>) {
    forall i :: 0 <= i < |rs| ==> Loggable(rs[i])
  }

  /** Everything after the checksum field. */
  function Body(r: Record): (b: Bytes)
    ensures |b| == 9 + |r.key| + |r.value|
  {
    [r.op] + PutUint(|r.key|, 4) + PutUint(|r.value|, 4) + r.key + r.value
  }

  function Encode(crc: Bytes -> U32, r: Record): (b: Bytes)
    ensures |b| == HEADER_SIZE + |r.key| + |r.value|
  {
    PutUint(crc(Body(r)), 4) + Body(r)
  }

  function EncodeAll(crc: Bytes -> U32, rs: seq<Record>): Bytes {
    if rs == [] then [] else Encode(crc, rs[0]) + EncodeAll(crc, rs[1..])
  }

  // ---------------------------------------------------------------------------------------------
  // What Replay does at one offset, given the bytes from there to the end of the file
  // ---------------------------------------------------------------------------------------------

  datatype Stop = EndOfFile | TornHeader | UnknownOp | MissingPayload | TornPayload | BadChecksum
  {
    /** The three stops at which Replay calls truncateAt. */
    predicate Truncates() {
      UnknownOp? || TornPayload? || BadChecksum?
    }
  }

  datatype Step = Valid(rec: Record, size: nat) | Stopped(why: Stop)

  function ReadRecord(crc: Bytes -> U32, b: Bytes): (s: Step)
    ensures s.Valid? ==> HEADER_SIZE <= s.size <= |b|
  {
    if |b| == 0 then Stopped(EndOfFile)
    else if |b| < HEADER_SIZE then Stopped(TornHeader)
    else
      var op, keyLen, valLen := b[4], Uint(b[5..9]), Uint(b[9..13]);
      if !KnownOp(op) then Stopped(UnknownOp)
      else if |b| == HEADER_SIZE && keyLen + valLen > 0 then Stopped(MissingPayload)
      else if |b| - HEADER_SIZE < keyLen + valLen then Stopped(TornPayload)
      else
        var size := HEADER_SIZE + keyLen + valLen;
        if crc(b[4..size]) != Uint(b[..4]) then Stopped(BadChecksum)
        else
          var payload := b[HEADER_SIZE..size];
          Valid(Record(op, payload[..keyLen], if op == OP_SET then payload[keyLen..] else []), size)
  }

  /** The records delivered, the bytes they occupy, and why the scan stopped there. */
  datatype Scanned = Scanned(records: seq<Record>, used: nat, stop: Stop)

  function Scan(crc: Bytes -> U32, b: Bytes): (s: Scanned)
    ensures s.used <= |b|
    decreases |b|
  {
    match ReadRecord(crc, b)
    case Stopped(why) => Scanned([], 0, why)
    case Valid(rec, size) =>
      var rest := Scan(crc, b[size..]);
      Scanned([rec] + rest.records, size + rest.used, rest.stop)
  }

  /** The file as Replay leaves it. */
  function Recovered(crc: Bytes -> U32, b: Bytes): Bytes {
    var s := Scan(crc, b);
    if s.stop.Truncates() then b[..s.used] else b
  }

  /** A scan of the whole file that has reached offset, having delivered these records. */
  ghost predicate Progress(crc: Bytes -> U32, b: Bytes, delivered: seq<Record>, offset: nat) {
    && offset <= |b|
    && var s := Scan(crc, b[offset..]);
       Scan(crc, b) == Scanned(delivered + s.records, offset + s.used, s.stop)
  }

  lemma ProgressStep(crc: Bytes -> U32, b: Bytes, delivered: seq<Record>, offset: nat, rec: Record, size: nat)
    requires Progress(crc, b, delivered, offset)
    requires ReadRecord(crc, b[offset..]) == Valid(rec, size)
    ensures Progress(crc, b, delivered + [rec], offset + size)
  {
    assert b[offset..][size..] == b[offset + size..];
    var rest := Scan(crc, b[offset + size..]);
    assert delivered + ([rec] + rest.records) == delivered + [rec] + rest.records;
  }

  lemma ProgressStop(crc: Bytes -> U32, b: Bytes, delivered: seq<Record>, offset: nat)
    requires Progress(crc, b, delivered, offset)
    requires ReadRecord(crc, b[offset..]).Stopped?
    ensures Scan(crc, b) == Scanned(delivered, offset, ReadRecord(crc, b[offset..]).why)
  {
  }

  /** The bytes Replay reassembles for the checksum are the record's own bytes. */
  lemma ChecksummedBytes(b: Bytes, keyLen: nat, valLen: nat)
    requires HEADER_SIZE + keyLen + valLen <= |b|
    requires keyLen == Uint(b[5..9]) && valLen == Uint(b[9..13])
    ensures [b[4]] + PutUint(keyLen, 4) + PutUint(valLen, 4) + b[HEADER_SIZE..HEADER_SIZE + keyLen + valLen]
         == b[4..HEADER_SIZE + keyLen + valLen]
  {
    U32Bound(b[5..9]);
    U32Bound(b[9..13]);
  }

  // ---------------------------------------------------------------------------------------------
  // The log file
  // ---------------------------------------------------------------------------------------------

  function Min(a: nat, b: nat): nat {
    if a < b then a else b
  }

  /** Go's copy(buf[at..], src): as much of src as there is room for. */
  method Copy(buf: array<Byte>, at: nat, src: Bytes)
    requires at <= buf.Length
    modifies buf
    ensures var n := Min(|src|, buf.Length - at);
            && buf[..at + n] == old(buf[..at]) + src[..n]
            && buf[at + n..] == old(buf[at + n..])
  {
    forall i | 0 <= i < |src| && at + i < buf.Length {
      buf[at + i] := src[i];
    }
  }

  /** What the 32-bit length fields keep of a record: all of it, unless a field is 4 GiB or longer. */
  function Kept(r: Record): (k: Record)
    ensures |r.key| < U32_SIZE && |r.value| < U32_SIZE ==> k == r
  {
    Record(r.op, r.key[..|r.key| % U32_SIZE], r.value[..|r.value| % U32_SIZE])
  }

  method PutHeader(buf: array<Byte>, op: Byte, keyLen: nat, valLen: nat)
    requires HEADER_SIZE <= buf.Length
    modifies buf
    ensures buf[..HEADER_SIZE] == old(buf[..4]) + ([op] + PutUint(keyLen, 4) + PutUint(valLen, 4))
  {
    hide PutUint;
    buf[4] := op;
    Copy(buf, 5, PutUint(keyLen, 4));
    Copy(buf, 9, PutUint(valLen, 4));
  }

  /** The key is copied up to the end of the buffer and the value over what the key field leaves. */
  method PutPayload(buf: array<Byte>, key: Bytes, value: Bytes, keyLen: nat, valLen: nat)
    requires buf.Length == HEADER_SIZE + keyLen + valLen && keyLen <= |key| && valLen <= |value|
    modifies buf
    ensures buf[..] == old(buf[..HEADER_SIZE]) + (key[..keyLen] + value[..valLen])
  {
    ghost var header := buf[..HEADER_SIZE];
    Copy(buf, HEADER_SIZE, key);
    assert buf[..HEADER_SIZE + keyLen] == header + key[..keyLen];
    Copy(buf, HEADER_SIZE + keyLen, value);
    assert buf[..] == header + key[..keyLen] + value[..valLen];
  }

  /** Append's buffer with every field but the checksum filled in. */
  method NewBuffer(rec: Record) returns (buf: array<Byte>)
    ensures fresh(buf)
    ensures buf.Length == 4 + |Body(Kept(rec))| && buf[4..] == Body(Kept(rec))
  {
    hide PutUint;
    var keyLen, valLen := |rec.key| % U32_SIZE, |rec.value| % U32_SIZE;
    buf := new Byte[HEADER_SIZE + keyLen + valLen](_ => 0);
    PutHeader(buf, rec.op, keyLen, valLen);
    PutPayload(buf, rec.key, rec.value, keyLen, valLen);
    assert buf[4..] == [rec.op] + PutUint(keyLen, 4) + PutUint(valLen, 4)
                       + (rec.key[..keyLen] + rec.value[..valLen]);
  }

  class Wal {
    const crc: Bytes -> U32
    var file: Bytes
    var pos: nat

    constructor (crc: Bytes -> U32, file: Bytes)
      ensures this.crc == crc && this.file == file
    {
      this.crc, this.file, pos := crc, file, 0;
    }

    method Append(rec: Record)
      modifies this
      ensures file == old(file) + Encode(crc, Kept(rec))
    {
      var buf := NewBuffer(rec);
      Copy(buf, 0, PutUint(crc(buf[4..]), 4));
      assert buf[..] == buf[..4] + buf[4..];
      file := file + buf[..];
      pos := |file|;
    }

    method TruncateAt(offset: nat)
      requires offset <= |file|
      modifies this
      ensures file == old(file[..offset]) && pos == offset
    {
      file := file[..offset];
      pos := offset;
    }

    /** io.ReadFull of n bytes from the current position. */
    method ReadFull(n: nat) returns (data: Bytes, got: Got)
      requires pos <= |file|
      modifies this`pos
      ensures old(pos) <= pos <= |file|
      ensures got == if n <= |file| - old(pos) then Full else if old(pos) == |file| then Eof else UnexpectedEof
      ensures got == Full ==> data == file[old(pos)..old(pos) + n] && pos == old(pos) + n
      ensures got != Full ==> pos == |file|
    {
      if n <= |file| - pos {
        data, got := file[pos..pos + n], Full;
        pos := pos + n;
      } else {
        data, got := file[pos..], if pos == |file| then Eof else UnexpectedEof;
        pos := |file|;
      }
    }

    /** One round of Replay's loop up to the point where the record is accepted or the scan stops. */
    method ReadNext() returns (step: Step)
      requires pos <= |file|
      modifies this`pos
      ensures step == ReadRecord(crc, file[old(pos)..])
      ensures step.Valid? ==> pos == old(pos) + step.size
    {
      hide Uint, PutUint;
      ghost var rest := file[pos..];
      var header, got := ReadFull(HEADER_SIZE);
      if got != Full {
        return Stopped(if got == Eof then EndOfFile else TornHeader);
      }
      assert header == rest[..HEADER_SIZE];
      var storedCrc, op := Uint(header[0..4]), header[4];
      var keyLen, valLen := Uint(header[5..9]), Uint(header[9..13]);
      assert header[0..4] == rest[..4] && header[5..9] == rest[5..9] && header[9..13] == rest[9..13];
      if !KnownOp(op) {
        return Stopped(UnknownOp);
      }
      var payload;
      payload, got := ReadFull(keyLen + valLen);
      if got != Full {
        return Stopped(if got == UnexpectedEof then TornPayload else MissingPayload);
      }
      assert payload == rest[HEADER_SIZE..HEADER_SIZE + keyLen + valLen];
      var checksumData := [op] + PutUint(keyLen, 4) + PutUint(valLen, 4) + payload;
      ChecksummedBytes(rest, keyLen, valLen);
      if crc(checksumData) != storedCrc {
        return Stopped(BadChecksum);
      }
      var rec := Record(op, payload[..keyLen], if op == OP_SET then payload[keyLen..] else []);
      return Valid(rec, HEADER_SIZE + keyLen + valLen);
    }

    /** Delivers the valid records in order; ok is false where the source returns an error. */
    method Replay() returns (delivered: seq<Record>, ok: bool)
      modifies this
      ensures delivered == Scan(crc, old(file)).records
      ensures file == Recovered(crc, old(file))
      ensures ok == !Scan(crc, old(file)).stop.MissingPayload?
    {
      hide ReadRecord, Scan;
      ghost var bytes := file;
      var offset := 0;
      pos, delivered, ok := 0, [], true;
      assert bytes[0..] == bytes;
      while true
        invariant file == bytes && pos == offset
        invariant Progress(crc, bytes, delivered, offset)
        decreases |file| - offset
      {
        var step := ReadNext();
        if step.Stopped? {
          ProgressStop(crc, bytes, delivered, offset);
          if step.why == MissingPayload {
            return delivered, false;
          }
          if step.why.Truncates() {
            TruncateAt(offset);
          }
          break;
        }
        ProgressStep(crc, bytes, delivered, offset, step.rec, step.size);
        delivered := delivered + [step.rec];
        offset := offset + step.size;
      }
      pos := |file|;
    }
  }

  datatype Got = Full | Eof | UnexpectedEof
}
