// The receiver of one file as a state machine (aetherlink-core recv.rs, resume.rs,
// io.rs): N drain workers, the checkpoint protocol, the sidecar record, and a disk
// on which a write is not durable until it has been synced. Every step below may be
// followed by any other that is enabled, and a kill or a power loss is always enabled.

module Receiver {
  import opened Base
  import opened Layout
  import opened Bitmaps
  import opened Record

  /** What every session at this path agrees on: same manifest entry, hence same `StateKey`. */
  datatype Spec = Spec(H: Hasher, layout: ChunkLayout, hashes: seq<Hash>, key: StateKey, threshold: nat) {

    ghost predicate Valid() {
      && Digests(H)
      && layout.Valid() && |hashes| == layout.count
      && key.Valid() && key.fileSize == layout.fileSize && key.chunkSize == layout.chunkSize
    }

    /** The hash tells these two candidates for chunk `i` apart: not both have the committed hash,
        unless they are the same string. */
    ghost predicate Apart(i: nat, a: seq<byte>, b: seq<byte>)
      requires Valid() && i < layout.count
    {
      H(a) == hashes[i] && H(b) == hashes[i] ==> a == b
    }

    /** `content` is a file of the full length whose chunk `i` has the committed hash. */
    ghost predicate Holds(content: seq<byte>, i: nat)
      requires Valid()
    {
      i < layout.count && |content| == layout.fileSize && H(layout.Slice(content, i)) == hashes[i]
    }

    /** A verified chunk: what `verify_and_write` lets through. */
    ghost predicate Verified(index: nat, bytes: seq<byte>)
      requires Valid()
    {
      index < layout.count && |bytes| == layout.Len(index) && H(bytes) == hashes[index]
    }

    ghost predicate InChunk(i: nat, p: nat) {
      i < layout.count && layout.Valid() && layout.Start(i) <= p < layout.Start(i) + layout.Len(i)
    }

    /** `preallocate`: sets the length, except that a size of zero leaves the file alone. */
    function Reserve(content: seq<byte>): seq<byte> {
      if layout.fileSize == 0 then content else Resize(content, layout.fileSize)
    }
  }

  /** `set_len`: truncates, or extends with zeros. */
  function Resize(s: seq<byte>, n: nat): (r: seq<byte>)
    ensures |r| == n
    ensures |s| == n ==> r == s
    ensures forall p :: 0 <= p < n ==> r[p] == if p < |s| then s[p] else 0
  {
    if |s| >= n then s[..n] else s + seq(n - |s|, _ => 0 as byte)
  }

  /** `onto` with the positions in `at` taken from `from`. */
  function Overlay(onto: seq<byte>, from: seq<byte>, at: set<nat>): (r: seq<byte>)
    ensures |r| == |onto|
    ensures forall p :: 0 <= p < |onto| ==> r[p] == (if p in at && p < |from| then from[p] else onto[p])
  {
    seq(|onto|, p requires 0 <= p < |onto| => if p in at && p < |from| then from[p] else onto[p])
  }

  // ----- states -------------------------------------------------------------------------

  /** Where a drain worker is between two chunks it takes from its stream. */
  datatype Worker =
    | Idle
    | Writing(index: nat, bytes: seq<byte>)   // hash matched, `write_all_at` under way
    | Written(index: nat)                     // the write returned, the bit is not set yet
    | Marked(index: nat)                      // the bit is set, the counter not advanced yet
    | Due                                     // the counter reached the threshold
    | Locked                                  // holds `checkpointing`, counter not reset yet
    | Cleared                                 // counter reset, snapshot not taken yet
    | Snapped(record: Bitmap)                 // snapshot taken
    | Syncing(record: Bitmap, dirty: set<nat>)// `sync_data` under way, these bytes still to reach the disk
    | Synced(record: Bitmap)                  // `sync_data` returned
    | Stored(record: Bitmap)                  // the temporary is written and synced, not renamed yet
    | Failed                                  // the worker returned an error

  /** The completeness phase: not reached, `sync_all` under way, or done with this file. */
  datatype Finish = NotYet | Flushing(dirty: set<nat>) | Done

  /** The memory of a running receiver. `base` and `latest` are history: what the bitmap held when the
      counter was last reset (or the session opened), and what the latest snapshot held. */
  datatype Session = Session(bitmap: Bitmap, since: nat, workers: seq<Worker>, finish: Finish,
                             base: set<nat>, latest: set<nat>)

  /** `cache` is what a reader sees, `durable` what a power loss leaves behind. `renamed` is history:
      every bitmap ever renamed into place as a record; `completed` tells whether a session ever
      finished this file. */
  datatype State = State(cache: seq<byte>, durable: seq<byte>, sidecar: Option<seq<byte>>,
                         renamed: set<Bitmap>, completed: bool, session: Option<Session>)

  // ----- steps --------------------------------------------------------------------------

  datatype Step =
    | Open(resume: bool, preexisting: bool, unreadable: set<nat>, bitmap: Bitmap, streams: nat)
    | Flush(at: set<nat>)
    | FlushLength
    | Receive(w: nat, index: nat, bytes: seq<byte>)
    | WriteSome(w: nat, at: set<nat>)
    | WriteEnd(w: nat)
    | SetBit(w: nat)
    | Count(w: nat)
    | LoseRace(w: nat)
    | Lock(w: nat)
    | Reset(w: nat)
    | Snapshot(w: nat)
    | LastCheckpoint(w: nat)
    | SyncBegin(w: nat)
    | SyncEnd(w: nat)
    | StoreTmp(w: nat)
    | Rename(w: nat)
    | GiveUp(w: nat)
    | FinishBegin
    | FinishEnd
    | Discard
    | Kill
    | PowerLoss(survivor: Option<Bitmap>)

  /** The bitmap a session starts from: the record if it loads, else a re-verification of what is on
      disk (less any chunk that could not be read), else nothing. */
  ghost predicate Chosen(spec: Spec, cache: seq<byte>, sidecar: Option<seq<byte>>, step: Step)
    requires spec.Valid() && step.Open?
  {
    var v := step.bitmap;
    var loaded := Load(spec.H, sidecar, Some(|cache|), spec.key);
    if !step.resume then v == NewBitmap(spec.layout.count)
    else if loaded.Some? then v == loaded.value
    else if step.preexisting then
      v.Valid() && v.count == spec.layout.count &&
      forall i: nat :: i in v.Members() <==>
        i < spec.layout.count && i !in step.unreadable && Matches(spec.H, spec.layout, spec.hashes, cache, i)
    else v == NewBitmap(spec.layout.count)
  }

  /** Positions still to be flushed shrink as the kernel writes bytes back. */
  function Flushed(workers: seq<Worker>, at: set<nat>): (r: seq<Worker>)
    ensures |r| == |workers|
    ensures forall k :: 0 <= k < |workers| ==>
              r[k] == (if workers[k].Syncing? then workers[k].(dirty := workers[k].dirty - at) else workers[k])
  {
    seq(|workers|, k requires 0 <= k < |workers| =>
      if workers[k].Syncing? then workers[k].(dirty := workers[k].dirty - at) else workers[k])
  }

  function FlushedSession(ses: Session, at: set<nat>): Session {
    ses.(workers := Flushed(ses.workers, at),
         finish := if ses.finish.Flushing? then Flushing(ses.finish.dirty - at) else ses.finish)
  }

  ghost predicate NobodyLocks(ses: Session) {
    forall k :: 0 <= k < |ses.workers| ==>
      var x := ses.workers[k];
      !x.Locked? && !x.Cleared? && !x.Snapped? && !x.Syncing? && !x.Synced? && !x.Stored?
  }

  /** Every stream task has been joined. */
  predicate Joined(ses: Session) {
    forall k :: 0 <= k < |ses.workers| ==> ses.workers[k].Idle? || ses.workers[k].Failed?
  }

  predicate NoneFailed(ses: Session) {
    forall k :: 0 <= k < |ses.workers| ==> ses.workers[k].Idle?
  }

  function Positions(n: nat): (s: set<nat>)
    ensures forall p: nat :: p in s <==> p < n
  {
    if n == 0 then {} else Positions(n - 1) + {n - 1}
  }

  function Put(ses: Session, w: nat, x: Worker): Session
    requires w < |ses.workers|
  {
    ses.(workers := ses.workers[w := x])
  }

  /** A step of the disk, the kernel or the crash that needs no running worker. */
  ghost predicate DiskStep(spec: Spec, s: State, s': State, step: Step)
    requires spec.Valid()
  {
    match step
    case Open(resume, preexisting, unreadable, bitmap, streams) =>
      && s.session.None?
      && s'.cache == spec.Reserve(s.cache)
      && Chosen(spec, s'.cache, s.sidecar, step)
      && bitmap.Sized()
      && s' == s.(cache := s'.cache,
                  session := Some(Session(bitmap, 0, seq(streams, _ => Idle), NotYet,
                                          bitmap.Members(), bitmap.Members())))
    case Flush(at) =>
      && (forall p :: p in at ==> p < |s.durable| && p < |s.cache|)
      && s' == s.(durable := Overlay(s.durable, s.cache, at),
               session := if s.session.Some? then Some(FlushedSession(s.session.value, at)) else None)
    case FlushLength =>
      s' == s.(durable := Resize(s.durable, |s.cache|))
    case Kill =>
      s' == s.(session := None)
    case PowerLoss(survivor) =>
      && (survivor.Some? ==> survivor.value in s.renamed)
      && s' == s.(cache := s.durable, session := None,
                  sidecar := if survivor.Some? then Some(EncodeRecord(spec.H, spec.key, survivor.value)) else None)
    case _ => false
  }

  /** A step of worker `w` of a running session. */
  ghost predicate WorkerStep(spec: Spec, s: State, s': State, step: Step, w: nat)
    requires spec.Valid() && s.session.Some? && w < |s.session.value.workers|
  {
    var ses := s.session.value;
    var x := ses.workers[w];
    match step
    case Receive(_, index, bytes) =>
      && x.Idle? && ses.finish.NotYet?
      && spec.Verified(index, bytes)
      && s' == s.(session := Some(Put(ses, w, Writing(index, bytes))))
    case WriteSome(_, at) =>
      && x.Writing? && x.index < spec.layout.count && |x.bytes| == spec.layout.Len(x.index)
      && |s.cache| == spec.layout.fileSize
      && s' == s.(cache := Overlay(s.cache, Placed(spec.layout, s.cache, x.index, x.bytes), at))
    case WriteEnd(_) =>
      && x.Writing? && x.index < spec.layout.count && |x.bytes| == spec.layout.Len(x.index)
      && |s.cache| == spec.layout.fileSize
      && s' == s.(cache := Placed(spec.layout, s.cache, x.index, x.bytes),
                  session := Some(Put(ses, w, Written(x.index))))
    case SetBit(_) =>
      && x.Written? && ses.bitmap.Valid() && x.index < ses.bitmap.count
      && s' == s.(session := Some(Put(ses, w, Marked(x.index)).(bitmap := WithBit(ses.bitmap, x.index))))
    case Count(_) =>
      && x.Marked? && x.index < spec.layout.count
      && var since := ses.since + spec.layout.Len(x.index);
         if spec.threshold == 0 then s' == s.(session := Some(Put(ses, w, Idle)))
         else s' == s.(session := Some(Put(ses, w, if since < spec.threshold then Idle else Due).(since := since)))
    case LoseRace(_) => x.Due? && s' == s.(session := Some(Put(ses, w, Idle)))
    case Lock(_) => x.Due? && NobodyLocks(ses) && s' == s.(session := Some(Put(ses, w, Locked)))
    case Reset(_) =>
      && x.Locked? && ses.bitmap.Sized()
      && s' == s.(session := Some(Put(ses, w, Cleared).(since := 0, base := ses.bitmap.Members())))
    case Snapshot(_) =>
      && x.Cleared? && ses.bitmap.Sized()
      && s' == s.(session := Some(Put(ses, w, if ses.bitmap.setCount == 0 then Idle else Snapped(ses.bitmap))
                                  .(latest := ses.bitmap.Members())))
    case LastCheckpoint(_) =>
      && Joined(ses) && ses.finish.NotYet? && ses.bitmap.Sized()
      && s' == s.(session := Some(Put(ses, w, if ses.bitmap.setCount == 0 then x else Snapped(ses.bitmap))
                                  .(latest := ses.bitmap.Members())))
    case SyncBegin(_) =>
      && x.Snapped?
      && s' == s.(session := Some(Put(ses, w, Syncing(x.record, Positions(|s.cache|)))))
    case SyncEnd(_) =>
      && x.Syncing? && x.dirty == {} && |s.durable| == |s.cache|
      && s' == s.(session := Some(Put(ses, w, Synced(x.record))))
    case StoreTmp(_) => x.Synced? && s' == s.(session := Some(Put(ses, w, Stored(x.record))))
    case Rename(_) =>
      && x.Stored?
      && s' == s.(sidecar := Some(EncodeRecord(spec.H, spec.key, x.record)), renamed := s.renamed + {x.record},
                  session := Some(Put(ses, w, Idle)))
    case GiveUp(_) =>
      && (x.Idle? || x.Writing? || x.Syncing? || x.Synced? || x.Stored?)
      && s' == s.(session := Some(Put(ses, w, Failed)))
    case _ => false
  }

  /** A step of the completeness phase. */
  ghost predicate FinishStep(s: State, s': State, step: Step)
    requires s.session.Some?
  {
    var ses := s.session.value;
    match step
    case FinishBegin =>
      && ses.finish.NotYet? && NoneFailed(ses) && ses.bitmap.IsComplete()
      && s' == s.(session := Some(ses.(finish := Flushing(Positions(|s.cache|)))))
    case FinishEnd =>
      && ses.finish.Flushing? && ses.finish.dirty == {} && |s.durable| == |s.cache|
      && s' == s.(completed := true, session := Some(ses.(finish := Done)))
    case Discard =>
      ses.finish.Done? && s' == s.(sidecar := None)
    case _ => false
  }

  /** The worker a step belongs to, if it is a worker's. */
  function WorkerOf(step: Step): Option<nat> {
    match step
    case Receive(w, _, _) => Some(w)
    case WriteSome(w, _) => Some(w)
    case WriteEnd(w) => Some(w)
    case SetBit(w) => Some(w)
    case Count(w) => Some(w)
    case LoseRace(w) => Some(w)
    case Lock(w) => Some(w)
    case Reset(w) => Some(w)
    case Snapshot(w) => Some(w)
    case LastCheckpoint(w) => Some(w)
    case SyncBegin(w) => Some(w)
    case SyncEnd(w) => Some(w)
    case StoreTmp(w) => Some(w)
    case Rename(w) => Some(w)
    case GiveUp(w) => Some(w)
    case _ => None
  }

  ghost predicate Next(spec: Spec, s: State, s': State, step: Step)
    requires spec.Valid()
  {
    || DiskStep(spec, s, s', step)
    || (s.session.Some? && WorkerOf(step).Some? && WorkerOf(step).value < |s.session.value.workers| &&
        WorkerStep(spec, s, s', step, WorkerOf(step).value))
    || (s.session.Some? && FinishStep(s, s', step))
  }

  /** Before the first session: no record, nothing completed, any content on disk. */
  ghost predicate Init(s: State) {
    s.sidecar.None? && s.renamed == {} && !s.completed && s.session.None?
  }

  /** A run: any finite sequence of steps, through any number of sessions and crashes. */
  ghost predicate IsRun(spec: Spec, states: seq<State>, steps: seq<Step>)
    requires spec.Valid()
  {
    && |states| == |steps| + 1
    && Init(states[0])
    && forall k :: 0 <= k < |steps| ==> Next(spec, states[k], states[k + 1], steps[k])
  }
}
