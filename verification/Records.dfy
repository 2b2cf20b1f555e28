/** The rows of the trace, as captured and as read back. */
module Records {
  datatype RecordKind = Span | Instant
  datatype Lane = Kernel | Extensions | EventBus | Dispatch | Middleware | Task | Scheduler | Hosted | User

  /** A row.  `uid` is its place in the capture history, which stands for the identity of the record
      object built from it; `args` are not modelled. */
  datatype Record = Record(uid: nat, t: int, kind: RecordKind, lane: Lane, name: string, cat: string, cid: nat,
                           dur: int)

  /** What a begin marker and its end marker share. */
  datatype Key = Key(lane: Lane, name: string, cat: string, cid: nat)

  function KeyOf(r: Record): Key { Key(r.lane, r.name, r.cat, r.cid) }

  function StartOf(r: Record): int { r.t - r.dur }

  predicate IsClosedSpan(r: Record) { r.kind == Span && r.dur > 0 }

  ghost predicate UniqueUids(s: seq<Record>) {
    forall i, j :: 0 <= i < j < |s| ==> s[i].uid != s[j].uid
  }
}
