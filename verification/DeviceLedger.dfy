/** The daemon's persisted ledger of sequence numbers and open grants, one record per device. */
module DeviceLedger {
  import opened Common
  import opened Cbor
  import opened DeviceEngine

  datatype Record = Record(nextSeq: u64, openNonce: Option<Id16>)

  type Ledger = map<Id16, Record>

  function RecordOf(l: Ledger, id: Id16): Record {
    if id in l then l[id] else Record(0, None)
  }

  /** The last number handed out for a device; zero before the first. */
  function LastSeq(l: Ledger, id: Id16): u64 {
    RecordOf(l, id).nextSeq
  }

  /** Reserving persists the bumped number before handing it back; a failed write hands back nothing. */
  function Reserved(l: Ledger, id: Id16, write: Write): (Ledger, Option<u64>) {
    var r := RecordOf(l, id);
    if r.nextSeq == MAX_U64 then (l, None)
    else
      var bumped := l[id := r.(nextSeq := r.nextSeq + 1)];
      (if write == Lost then l else bumped, if write == Stored then Some(r.nextSeq + 1) else None)
  }

  /** A number handed out is the next one and is persisted; none is handed out only on a failed write or at the end. */
  lemma ReservedIsNext(l: Ledger, id: Id16, write: Write)
    ensures var (l', n) := Reserved(l, id, write);
            && (n.Some? <==> write == Stored && LastSeq(l, id) < MAX_U64)
            && (n.Some? ==> n.value == LastSeq(l, id) + 1 == LastSeq(l', id))
            && (forall d :: d != id ==> RecordOf(l', d) == RecordOf(l, d))
            && RecordOf(l', id).openNonce == RecordOf(l, id).openNonce
  {
  }

  class DeviceState {
    var devices: Ledger

    constructor ()
      ensures devices == map[]
    {
      devices := map[];
    }

    /** Bump, persist, return. */
    method ReserveSeq(id: Id16, write: Write) returns (r: Option<u64>)
      modifies this
      ensures (devices, r) == Reserved(old(devices), id, write)
    {
      var record := RecordOf(devices, id);
      if record.nextSeq == MAX_U64 {
        return None;
      }
      record := record.(nextSeq := record.nextSeq + 1);
      var n := record.nextSeq;
      if write == Lost {
        return None;
      }
      devices := devices[id := record];
      return if write == Stored then Some(n) else None;
    }

    method SetOpenNonce(id: Id16, nonce: Id16)
      modifies this
      ensures devices == old(devices)[id := RecordOf(old(devices), id).(openNonce := Some(nonce))]
      ensures forall d :: LastSeq(devices, d) == LastSeq(old(devices), d)
    {
      devices := devices[id := RecordOf(devices, id).(openNonce := Some(nonce))];
    }

    method ClearOpenNonce(id: Id16)
      modifies this
      ensures forall d :: LastSeq(devices, d) == LastSeq(old(devices), d)
      ensures RecordOf(devices, id).openNonce == None
      ensures forall d :: d != id ==> RecordOf(devices, d) == RecordOf(old(devices), d)
      ensures devices.Keys == old(devices).Keys
    {
      if id in devices {
        devices := devices[id := devices[id].(openNonce := None)];
      }
    }
  }
}
