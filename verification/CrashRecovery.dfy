/** From a crash to the next Open, at the level of the log's bytes. */
module CrashRecovery {

  import opened ByteStrings
  import opened Tables
  import opened Merge
  import opened CompactionSoundness
  import opened Store
  import opened StoreInvariants
  import opened Database
  import Log = WriteAheadLog
  import WalRecovery

  lemma WriteRoundTrip(ws: seq<Write>)
    ensures WritesOf(RecordsOf(ws)) == ws
  {
  }

  /**
   * The log of these writes is cut at byte c, and the store is opened on what is left: exactly the
   * writes wholly before the cut are replayed, and Open fails only if the cut fell just after a header.
   */
  lemma CutReplays(crc: Bytes -> U32, ws: seq<Write>, c: nat)
    requires Loggable(ws) && c <= |Log.EncodeAll(crc, RecordsOf(ws))|
    ensures var rs, b := RecordsOf(ws), Log.EncodeAll(crc, RecordsOf(ws))[..c];
            && WritesOf(Log.Scan(crc, b).records) == ws[..WalRecovery.WholeBefore(rs, c)]
            && (Log.Scan(crc, b).stop.MissingPayload? <==> WalRecovery.TornBytes(rs, c) == Log.HEADER_SIZE)
  {
    hide Log.EncodeAll, Log.Scan, Log.Recovered, Log.Loggable;
    var rs := RecordsOf(ws);
    WalRecovery.CrashCut(crc, rs, c);
    var n := WalRecovery.WholeBefore(rs, c);
    assert rs[..n] == RecordsOf(ws[..n]);
    WriteRoundTrip(ws[..n]);
  }

  /**
   * Opening the cut log over any tables shows the fold of the surviving writes for each of their keys, and
   * for every key at all if and only if no key outside the surviving writes reads from the tables.
   */
  lemma CutRecovers(crc: Bytes -> U32, ws: seq<Write>, c: nat, dir: Dir)
    requires Loggable(ws) && c <= |Log.EncodeAll(crc, RecordsOf(ws))|
    ensures var kept := ws[..WalRecovery.WholeBefore(RecordsOf(ws), c)];
            var s := Opened(WritesOf(Log.Scan(crc, Log.EncodeAll(crc, RecordsOf(ws))[..c]).records), dir);
            && (forall k | k in Fold(kept) :: View(s, k) == Shown(Some(Fold(kept)[k])))
            && ((forall k :: View(s, k) == Shown(At(Fold(kept), k)))
                  <==> (forall k :: k !in Fold(kept) ==> Read(dir, k) == None))
  {
    hide Log.EncodeAll, Log.Scan, WritesOf, RecordsOf, WalRecovery.WholeBefore, Fold, Opened, View, Loggable, Read;
    CutReplays(crc, ws, c);
    var kept := ws[..WalRecovery.WholeBefore(RecordsOf(ws), c)];
    RecoveryExact(kept, dir);
    forall k | k in Fold(kept)
      ensures View(Opened(kept, dir), k) == Shown(Some(Fold(kept)[k]))
    {
      OpenedView(kept, dir, k);
    }
  }
}
