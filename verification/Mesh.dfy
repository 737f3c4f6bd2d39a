/** relay/mesh.go: length-prefixed frames forwarded between per-device streams. Many sources may write to
    one stream; a frame takes four writes under the stream's mutex. Ids and payloads are bytes. */
module Mesh {
  import opened Wrappers
  import opened Wire

  const MAX_FRAME: nat := 65535

  datatype Frame = Frame(id: seq<byte>, payload: seq<byte>) {
    predicate Fits() { |id| <= MAX_FRAME && |payload| <= MAX_FRAME }
  }

  // ----- The codec -----

  function Encode(f: Frame): seq<byte>
    requires f.Fits()
  {
    BE16(|f.id|) + f.id + BE16(|f.payload|) + f.payload
  }

  /** The decoded frame and how many bytes it took; None when the stream ends first. */
  function Decode(s: seq<byte>): (r: Option<(Frame, nat)>)
    ensures r.Some? ==> 4 <= r.value.1 <= |s| && r.value.0.Fits()
  {
    if |s| < 2 then None
    else
      var i := UInt16(s[..2]);
      if |s| < 4 + i then None
      else
        var p := UInt16(s[2 + i..4 + i]);
        if |s| < 4 + i + p then None
        else Some((Frame(s[2..2 + i], s[4 + i..4 + i + p]), 4 + i + p))
  }

  lemma EncodedParts(f: Frame, rest: seq<byte>)
    requires f.Fits()
    ensures var s, i := Encode(f) + rest, |f.id|;
      && s[..2] == BE16(i) && s[2..2 + i] == f.id && s[2 + i..4 + i] == BE16(|f.payload|)
      && s[4 + i..4 + i + |f.payload|] == f.payload && s[4 + i + |f.payload|..] == rest
  {
    hide BE16, UInt16;
  }

  /** Decoding an encoded frame followed by anything gives the frame back and stops at its end. */
  lemma DecodeOfEncode(f: Frame, rest: seq<byte>)
    requires f.Fits()
    ensures Decode(Encode(f) + rest) == Some((f, |Encode(f)|)) && (Encode(f) + rest)[|Encode(f)|..] == rest
  {
    hide BE16, UInt16;
    EncodedParts(f, rest);
  }

  /** Whatever decodes is the encoding of what it decodes to. */
  lemma EncodeOfDecode(s: seq<byte>)
    requires Decode(s).Some?
    ensures s[..Decode(s).value.1] == Encode(Decode(s).value.0)
  {
    hide BE16, UInt16;
    var i := UInt16(s[..2]);
    var p := UInt16(s[2 + i..4 + i]);
    Reencode16(s[..2]);
    Reencode16(s[2 + i..4 + i]);
    assert s[..4 + i + p] == s[..2] + s[2..2 + i] + s[2 + i..4 + i] + s[4 + i..4 + i + p];
  }

  /** A frame cut short does not decode. */
  lemma CutFrame(f: Frame, k: nat)
    requires f.Fits() && k < |Encode(f)|
    ensures Decode(Encode(f)[..k]).None?
  {
    hide BE16, UInt16;
    var s, i := Encode(f), |f.id|;
    EncodedParts(f, []);
    assert s + [] == s;
    if 2 <= k { assert s[..k][..2] == s[..2]; }
    if 4 + i <= k { assert s[..k][2 + i..4 + i] == s[2 + i..4 + i]; }
  }

  function DecodeAll(s: seq<byte>): seq<Frame>
    decreases |s|
  {
    var d := Decode(s);
    if d.None? then [] else [d.value.0] + DecodeAll(s[d.value.1..])
  }

  function EncodeAll(fs: seq<Frame>): seq<byte>
    requires forall i :: 0 <= i < |fs| ==> fs[i].Fits()
  {
    if fs == [] then [] else Encode(fs[0]) + EncodeAll(fs[1..])
  }

  lemma {:induction false} EncodeAllAppend(fs: seq<Frame>, f: Frame)
    requires f.Fits() && forall i :: 0 <= i < |fs| ==> fs[i].Fits()
    ensures EncodeAll(fs + [f]) == EncodeAll(fs) + Encode(f)
  {
    if fs == [] {
      assert EncodeAll([f]) == Encode(f) + EncodeAll([f][1..]);
    } else {
      assert (fs + [f])[1..] == fs[1..] + [f];
      EncodeAllAppend(fs[1..], f);
    }
  }

  lemma {:induction false} DecodeAllOfEncodeAll(fs: seq<Frame>, tail: seq<byte>)
    requires (forall i :: 0 <= i < |fs| ==> fs[i].Fits()) && Decode(tail).None?
    ensures DecodeAll(EncodeAll(fs) + tail) == fs
  {
    if fs == [] {
      assert EncodeAll(fs) + tail == tail;
    } else {
      DecodeAllOfEncodeAll(fs[1..], tail);
      assert EncodeAll(fs) + tail == Encode(fs[0]) + (EncodeAll(fs[1..]) + tail);
      DecodeOfEncode(fs[0], EncodeAll(fs[1..]) + tail);
    }
  }

  // ----- The forwarder -----

  /** A registered stream's immutable owner data. */
  datatype Handle = Handle(deviceID: seq<byte>, userID: string)

  /** A decoded frame, the nth its source read, whose source waits for its target's mutex, or (locked) is
      writing it. */
  datatype Job = Job(target: nat, payload: seq<byte>, nth: nat, locked: bool)

  /** `log` remembers which source forwarded each frame that is completely on the stream, and which of the
      frames it read that was. */
  datatype Sent = Sent(source: nat, frame: Frame, nth: nat)

  /** The holder of the stream's mutex: `written` of the encoder's four writes are done. */
  datatype Writer = Writer(source: nat, frame: Frame, nth: nat, written: nat)

  datatype Stream = Stream(bytes: seq<byte>, writer: Option<Writer>, broken: bool, log: seq<Sent>)

  datatype State = State(
    convexBacked: bool,
    handles: map<nat, Handle>,
    taken: map<nat, seq<Frame>>,       // what each source loop has decoded so far
    meshStreams: map<seq<byte>, nat>,
    streams: map<nat, Stream>,
    jobs: map<nat, Job>)

  datatype Step =
    | Register(h: nat, deviceID: seq<byte>, userID: string)
    | Deregister(h: nat)
    | Drop(deviceID: seq<byte>)
    | Forward(h: nat, input: seq<byte>)   // the source loop decodes one frame and looks its target up
    | Lock(h: nat)
    | WritePiece(t: nat)
    | WriteFails(t: nat, part: nat)       // a write takes only `part` bytes and the stream is dead from then on

  predicate SameMeshOwner(source: string, target: string, convexBacked: bool) {
    if convexBacked && (source == "" || target == "") then false else source == target
  }

  /** The encoder's k-th write. */
  function Piece(f: Frame, k: nat): seq<byte>
    requires f.Fits() && k < 4
  {
    if k == 0 then BE16(|f.id|) else if k == 1 then f.id else if k == 2 then BE16(|f.payload|) else f.payload
  }

  /** The write that puts the frame's last byte on the stream; an empty payload leaves nothing to the fourth. */
  function LastByte(f: Frame): nat { if f.payload == [] then 2 else 3 }

  predicate CanWrite(st: Stream) {
    st.writer.Some? && st.writer.value.written < 4 && st.writer.value.frame.Fits()
  }

  /** How much of its piece a failing write may still put on the stream. */
  predicate CanFail(st: Stream, part: nat)
    requires CanWrite(st)
  {
    part == 0 || (!st.broken && part < |Piece(st.writer.value.frame, st.writer.value.written)|)
  }

  predicate Enabled(s: State, e: Step) {
    match e
    case Register(h, _, _) => h !in s.handles && h !in s.taken && h !in s.streams && h !in s.jobs
    case Deregister(h) => h in s.handles && h !in s.jobs
    case Drop(_) => true
    case Forward(h, input) => h in s.handles && h !in s.jobs && Decode(input).Some?
    case Lock(h) =>
      h in s.handles && h in s.jobs && !s.jobs[h].locked && s.jobs[h].target in s.streams && s.streams[s.jobs[h].target].writer.None?
    case WritePiece(t) => t in s.streams && CanWrite(s.streams[t]) && !s.streams[t].broken
    case WriteFails(t, part) =>
      t in s.streams && CanWrite(s.streams[t]) && CanFail(s.streams[t], part)
  }

  function AfterPiece(st: Stream): Stream
    requires CanWrite(st)
  {
    var w := st.writer.value;
    Stream(st.bytes + Piece(w.frame, w.written),
           if w.written < 3 then Some(w.(written := w.written + 1)) else None,
           st.broken,
           if w.written == LastByte(w.frame) then st.log + [Sent(w.source, w.frame, w.nth)] else st.log)
  }

  function AfterFailure(st: Stream, part: nat): Stream
    requires CanWrite(st) && part <= |Piece(st.writer.value.frame, st.writer.value.written)|
  {
    Stream(st.bytes + Piece(st.writer.value.frame, st.writer.value.written)[..part], None, true, st.log)
  }

  /** No write succeeds on a closed stream, not even the rest of a frame being written. */
  function CloseStream(s: State, h: nat): State {
    if h in s.streams then s.(streams := s.streams[h := s.streams[h].(broken := true)]) else s
  }

  /** The source has read one more frame; unless it is dropped, it now waits for its target's mutex. */
  function AfterForward(s: State, h: nat, f: Frame): State
    requires h in s.handles
  {
    var before := if h in s.taken then s.taken[h] else [];
    var read := s.(taken := s.taken[h := before + [f]]);
    if f.id == [] || f.id !in s.meshStreams then read
    else
      var target := s.meshStreams[f.id];
      if target !in s.handles || !SameMeshOwner(s.handles[h].userID, s.handles[target].userID, s.convexBacked) then read
      else read.(jobs := s.jobs[h := Job(target, f.payload, |before|, false)])
  }

  /** A source reads a frame: nothing else moves but its own job. */
  lemma ForwardMoves(s: State, h: nat, f: Frame)
    requires h in s.handles && h !in s.jobs
    ensures var s' := AfterForward(s, h, f);
      && s' == s.(taken := s'.taken, jobs := s'.jobs)
      && (s'.jobs == s.jobs
          || (h in s'.jobs && s'.jobs == s.jobs[h := s'.jobs[h]] && f.id in s.meshStreams && s'.jobs[h].target == s.meshStreams[f.id]
              && OneOwner(s, h, s'.jobs[h].target) && s'.jobs[h] == Job(s'.jobs[h].target, f.payload, |s'.taken[h]| - 1, false)))
      && s'.taken == s.taken[h := (if h in s.taken then s.taken[h] else []) + [f]]
  {
  }

  function Next(s: State, e: Step): State
    requires Enabled(s, e)
  {
    match e
    case Register(h, d, u) =>
      s.(handles := s.handles[h := Handle(d, u)], taken := s.taken[h := []], meshStreams := s.meshStreams[d := h],
         streams := s.streams[h := Stream([], None, false, [])])
    case Deregister(h) =>
      var d := s.handles[h].deviceID;
      CloseStream(if d in s.meshStreams && s.meshStreams[d] == h then s.(meshStreams := s.meshStreams - {d}) else s, h)
    case Drop(d) => if d in s.meshStreams then CloseStream(s.(meshStreams := s.meshStreams - {d}), s.meshStreams[d]) else s
    case Forward(h, input) => AfterForward(s, h, Decode(input).value.0)
    case Lock(h) =>
      var j, f := s.jobs[h], Frame(s.handles[h].deviceID, s.jobs[h].payload);
      if !f.Fits() then s.(jobs := s.jobs - {h})
      else s.(jobs := s.jobs[h := j.(locked := true)],
              streams := s.streams[j.target := s.streams[j.target].(writer := Some(Writer(h, f, j.nth, 0)))])
    case WritePiece(t) =>
      var st := AfterPiece(s.streams[t]);
      s.(streams := s.streams[t := st],
         jobs := if st.writer.None? then s.jobs - {s.streams[t].writer.value.source} else s.jobs)
    case WriteFails(t, part) =>
      s.(streams := s.streams[t := AfterFailure(s.streams[t], part)],
         jobs := s.jobs - {s.streams[t].writer.value.source})
  }

  function Initial(convexBacked: bool): State { State(convexBacked, map[], map[], map[], map[], map[]) }

  ghost predicate Run(states: seq<State>, steps: seq<Step>) {
    && |states| == |steps| + 1
    && states[0] == Initial(states[0].convexBacked)
    && forall k :: 0 <= k < |steps| ==> Enabled(states[k], steps[k]) && states[k+1] == Next(states[k], steps[k])
  }

  // ----- What a stream holds at any moment -----

  function Frames(log: seq<Sent>): seq<Frame> { seq(|log|, i requires 0 <= i < |log| => log[i].frame) }

  /** The first k writes of a frame. */
  function Written(f: Frame, k: nat): seq<byte>
    requires f.Fits() && k <= 4
  {
    if k == 0 then [] else Written(f, k - 1) + Piece(f, k - 1)
  }

  lemma WritesInFull(f: Frame)
    requires f.Fits()
    ensures Written(f, 0) == [] && Written(f, 1) == BE16(|f.id|) && Written(f, 2) == BE16(|f.id|) + f.id
    ensures Written(f, 3) == BE16(|f.id|) + f.id + BE16(|f.payload|) && Written(f, 4) == Encode(f)
  {
    hide BE16, UInt16;
  }

  lemma WrittenByParts(f: Frame, k: nat)
    requires f.Fits() && k < 4
    ensures Written(f, 4) == Encode(f) && (f.payload == [] ==> Written(f, 3) == Encode(f))
    ensures Written(f, k) + Piece(f, k) == Written(f, k + 1) <= Encode(f)
    ensures k < LastByte(f) ==> |Written(f, k + 1)| < |Encode(f)|
  {
    WritesInFull(f);
    assert Written(f, k) + Piece(f, k) == Written(f, k + 1);
    hide BE16, UInt16, Written;
  }

  /** What an interrupted frame leaves behind never decodes. */
  lemma PartialDoesNotDecode(f: Frame, k: nat, part: nat)
    requires f.Fits() && k <= LastByte(f) && (part == 0 || part < |Piece(f, k)|)
    ensures Decode(Written(f, k) + Piece(f, k)[..part]).None?
  {
    hide BE16, UInt16;
    var p := Written(f, k) + Piece(f, k)[..part];
    WrittenByParts(f, k);
    if k > 0 { WrittenByParts(f, k - 1); }
    assert p <= Written(f, k + 1);
    assert |p| < |Encode(f)| && p == Encode(f)[..|p|];
    CutFrame(f, |p|);
  }

  ghost predicate LogFits(log: seq<Sent>) {
    forall i :: 0 <= i < |log| ==> log[i].frame.Fits()
  }

  /** A stream is its complete frames, then `tail`. */
  ghost predicate Holds(st: Stream, tail: seq<byte>) {
    LogFits(st.log) && st.bytes == EncodeAll(Frames(st.log)) + tail
  }

  /** What the current writer has put down of its unfinished frame. */
  function Unfinished(f: Frame, written: nat): seq<byte>
    requires f.Fits() && written <= 4
  {
    if written <= LastByte(f) then Written(f, written) else []
  }

  ghost predicate OneOwner(s: State, source: nat, t: nat) {
    source in s.handles && t in s.handles && SameMeshOwner(s.handles[source].userID, s.handles[t].userID, s.convexBacked)
  }

  /** A frame carries its source's registered device id, and source and target have one owner. */
  ghost predicate Provenance(s: State, t: nat, source: nat, f: Frame) {
    OneOwner(s, source, t) && f.id == s.handles[source].deviceID
  }

  /** The bytes of a stream: its complete frames and the beginning of the one being written. */
  ghost predicate BytesOk(st: Stream) {
    && (st.writer.Some? ==> CanWrite(st))
    && (if st.broken then exists tail :: Holds(st, tail) && Decode(tail).None?
        else Holds(st, if st.writer.Some? then Unfinished(st.writer.value.frame, st.writer.value.written) else []))
  }

  ghost predicate TagsOk(s: State, t: nat, st: Stream) {
    && (st.writer.Some? ==> Provenance(s, t, st.writer.value.source, st.writer.value.frame))
    && (forall i :: 0 <= i < |st.log| ==> Provenance(s, t, st.log[i].source, st.log[i].frame))
  }

  /** The table's keys are the registered ids of the streams they name; a job's two ends have one owner. */
  ghost predicate TablesOk(s: State) {
    && TableOk(s)
    && (forall h :: h in s.jobs ==> OneOwner(s, h, s.jobs[h].target))
  }

  ghost predicate Inv(s: State) {
    && TablesOk(s)
    && (forall t :: t in s.streams ==> BytesOk(s.streams[t]) && TagsOk(s, t, s.streams[t]))
  }

  lemma FramesAppend(log: seq<Sent>, m: Sent)
    requires LogFits(log) && m.frame.Fits()
    ensures EncodeAll(Frames(log + [m])) == EncodeAll(Frames(log)) + Encode(m.frame)
  {
    EncodeAllAppend(Frames(log), m.frame);
    assert Frames(log + [m]) == Frames(log) + [m.frame];
  }

  lemma PieceKeepsBytes(st: Stream)
    requires CanWrite(st) && !st.broken && BytesOk(st)
    ensures BytesOk(AfterPiece(st))
  {
    hide BE16, UInt16, Decode, Encode, EncodeAll, Written, Piece;
    var f, k, after := st.writer.value.frame, st.writer.value.written, AfterPiece(st);
    WrittenByParts(f, k);
    if k == LastByte(f) {
      FramesAppend(st.log, Sent(st.writer.value.source, f, st.writer.value.nth));
      assert after.bytes == EncodeAll(Frames(st.log)) + (Written(f, k) + Piece(f, k));
      assert after.bytes == EncodeAll(Frames(after.log)) + [];
    } else if k < LastByte(f) {
      assert after.bytes == EncodeAll(Frames(after.log)) + (Written(f, k) + Piece(f, k));
    } else {
      FourthWriteOfNothing(f, k);
      assert after.bytes == st.bytes;
    }
  }

  lemma FourthWriteOfNothing(f: Frame, k: nat)
    requires f.Fits() && LastByte(f) < k < 4
    ensures Piece(f, k) == []
  {
  }

  lemma FailureKeepsBytes(st: Stream, part: nat)
    requires CanWrite(st) && CanFail(st, part) && BytesOk(st)
    ensures BytesOk(AfterFailure(st, part))
  {
    hide BE16, UInt16, Decode, Encode, EncodeAll, Written, Piece;
    var f, k, after := st.writer.value.frame, st.writer.value.written, AfterFailure(st, part);
    if st.broken {
      var tail :| Holds(st, tail) && Decode(tail).None?;
      assert after.bytes == st.bytes;
      assert Holds(after, tail);
    } else {
      var tail := Unfinished(f, k) + Piece(f, k)[..part];
      if k <= LastByte(f) {
        PartialDoesNotDecode(f, k, part);
      } else {
        FourthWriteOfNothing(f, k);
        EmptyDoesNotDecode(tail);
      }
      assert Holds(after, tail);
    }
  }

  lemma TagsPersist(s: State, s': State, t: nat, st: Stream)
    requires TagsOk(s, t, st) && s'.convexBacked == s.convexBacked
    requires forall h :: h in s.handles ==> h in s'.handles && s'.handles[h] == s.handles[h]
    ensures TagsOk(s', t, st)
  {
    forall i | 0 <= i < |st.log| ensures Provenance(s', t, st.log[i].source, st.log[i].frame) {
      assert Provenance(s, t, st.log[i].source, st.log[i].frame);
    }
  }

  lemma EmptyStream()
    ensures BytesOk(Stream([], None, false, []))
  {
    assert Frames([]) == [];
  }

  /** What one step can make of one stream. */
  lemma StreamMoves(s: State, e: Step, t: nat)
    requires Enabled(s, e) && t in s.streams
    ensures var s' := Next(s, e);
      && t in s'.streams && s'.convexBacked == s.convexBacked
      && (forall h :: h in s.handles ==> h in s'.handles && s'.handles[h] == s.handles[h])
      && var st, st' := s.streams[t], s'.streams[t];
         || st' == st
         || (e == WritePiece(t) && CanWrite(st) && !st.broken && st' == AfterPiece(st))
         || (e.WriteFails? && e.t == t && CanWrite(st) && CanFail(st, e.part) && st' == AfterFailure(st, e.part))
         || st' == st.(broken := true)
         || (e.Lock? && e.h in s.handles && e.h in s.jobs && s.jobs[e.h].target == t && st.writer.None?
             && st' == st.(writer := Some(Writer(e.h, Frame(s.handles[e.h].deviceID, s.jobs[e.h].payload), s.jobs[e.h].nth, 0))) && CanWrite(st'))
  {
    hide BE16, UInt16, Decode, Encode, EncodeAll, Written, Piece, AfterPiece, AfterFailure, AfterForward;
    if e.Forward? { ForwardMoves(s, e.h, Decode(e.input).value.0); }
  }

  lemma StepKeepsStreams(s: State, e: Step, t: nat)
    requires Inv(s) && Enabled(s, e) && t in s.streams
    ensures var s' := Next(s, e); t in s'.streams && BytesOk(s'.streams[t]) && TagsOk(s', t, s'.streams[t])
  {
    hide BE16, UInt16, Decode, Encode, EncodeAll, Written, Piece, Holds, Next, BytesOk, Enabled, LogFits;
    StreamMoves(s, e, t);
    var s' := Next(s, e);
    var st, st' := s.streams[t], s'.streams[t];
    TagsPersist(s, s', t, st);
    if st' == st {
    } else if st' == st.(broken := true) {
      ClosedStream(st);
    } else if e.WritePiece? {
      PieceKeepsBytes(st);
    } else if e.WriteFails? {
      FailureKeepsBytes(st, e.part);
    } else {
      LockedStream(st, st');
    }
  }

  lemma LockedStream(st: Stream, st': Stream)
    requires BytesOk(st) && st.writer.None? && st'.writer.Some? && CanWrite(st') && st'.writer.value.written == 0
    requires st' == st.(writer := st'.writer)
    ensures BytesOk(st')
  {
    if st.broken {
      var tail :| Holds(st, tail) && Decode(tail).None?;
      assert Holds(st', tail);
    }
  }

  lemma ClosedStream(st: Stream)
    requires BytesOk(st)
    ensures BytesOk(st.(broken := true))
  {
    if !st.broken {
      var tail := if st.writer.Some? then Unfinished(st.writer.value.frame, st.writer.value.written) else [];
      if st.writer.Some? {
        UnfinishedDoesNotDecode(st.writer.value.frame, st.writer.value.written);
      } else {
        EmptyDoesNotDecode(tail);
      }
      assert Holds(st.(broken := true), tail);
    } else {
      assert st.(broken := true) == st;
    }
  }

  /** The device's table entry is this stream. */
  predicate Lists(s: State, d: seq<byte>, h: nat) { d in s.meshStreams && s.meshStreams[d] == h }

  predicate Unlists(e: Step, d: seq<byte>, h: nat) {
    (e.Register? && e.deviceID == d && e.h != h) || e == Drop(d) || e == Deregister(h)
  }

  ghost predicate TableOk(s: State) {
    forall d :: d in s.meshStreams ==> s.meshStreams[d] in s.handles && s.handles[s.meshStreams[d]].deviceID == d
  }

  /** How one step changes the table. */
  lemma TableAfter(s: State, e: Step)
    requires TableOk(s) && Enabled(s, e)
    ensures var table := Next(s, e).meshStreams;
      match e
      case Register(h, d, _) => table == s.meshStreams[d := h]
      case Deregister(h) =>
        h in s.handles && table == if Lists(s, s.handles[h].deviceID, h) then s.meshStreams - {s.handles[h].deviceID} else s.meshStreams
      case Drop(d) => table == s.meshStreams - {d}
      case _ => table == s.meshStreams
  {
    hide BE16, UInt16, Decode, Encode, EncodeAll, Written, Piece, AfterPiece, AfterFailure, AfterForward, SameMeshOwner, CanWrite, CanFail, TableOk;
    if e.Forward? { ForwardMoves(s, e.h, Decode(e.input).value.0); }
  }

  lemma ListsAfter(s: State, e: Step, d: seq<byte>, h: nat)
    requires TableOk(s) && Enabled(s, e)
    ensures Lists(Next(s, e), d, h) <==> (e.Register? && e.h == h && e.deviceID == d) || (Lists(s, d, h) && !Unlists(e, d, h))
  {
    TableAfter(s, e);
    hide Next, Enabled;
  }

  lemma StepKeepsTable(s: State, e: Step)
    requires TableOk(s) && Enabled(s, e)
    ensures TableOk(Next(s, e)) && Next(s, e).convexBacked == s.convexBacked
  {
    hide BE16, UInt16, Decode, Encode, EncodeAll, Written, Piece, AfterPiece, AfterFailure, AfterForward, SameMeshOwner, CanWrite, CanFail;
    if e.Forward? { ForwardMoves(s, e.h, Decode(e.input).value.0); }
  }

  lemma StepKeepsTables(s: State, e: Step)
    requires TablesOk(s) && Enabled(s, e)
    ensures TablesOk(Next(s, e)) && Next(s, e).convexBacked == s.convexBacked
  {
    StepKeepsTable(s, e);
    OwnersPersist(s, e);
    hide Next, Enabled, OneOwner;
    var s' := Next(s, e);
    forall h | h in s'.jobs ensures OneOwner(s', h, s'.jobs[h].target) {
      if h in s.jobs && s'.jobs[h].target == s.jobs[h].target {
        assert OneOwner(s, h, s.jobs[h].target);
      } else {
        NewJobHasOneOwner(s, e, h);
      }
    }
  }

  lemma OwnersPersist(s: State, e: Step)
    requires Enabled(s, e)
    ensures forall h, t :: OneOwner(s, h, t) ==> OneOwner(Next(s, e), h, t)
  {
    hide BE16, UInt16, Decode, Encode, EncodeAll, Written, Piece, AfterPiece, AfterFailure, AfterForward, SameMeshOwner, CanWrite, CanFail;
    if e.Forward? { ForwardMoves(s, e.h, Decode(e.input).value.0); }
    var s' := Next(s, e);
    assert forall h :: h in s.handles ==> h in s'.handles && s'.handles[h] == s.handles[h];
  }

  lemma NewJobHasOneOwner(s: State, e: Step, h: nat)
    requires Enabled(s, e) && h in Next(s, e).jobs
    requires h !in s.jobs || Next(s, e).jobs[h].target != s.jobs[h].target
    ensures OneOwner(Next(s, e), h, Next(s, e).jobs[h].target)
  {
    hide BE16, UInt16, Decode, Encode, EncodeAll, Written, Piece, AfterPiece, AfterFailure, AfterForward, SameMeshOwner, CanWrite, CanFail;
    if e.Forward? { ForwardMoves(s, e.h, Decode(e.input).value.0); }
  }

  lemma NewStreamIsEmpty(s: State, e: Step, t: nat)
    requires Enabled(s, e) && t !in s.streams && t in Next(s, e).streams
    ensures Next(s, e).streams[t] == Stream([], None, false, [])
  {
    hide BE16, UInt16, Decode, Encode, EncodeAll, Written, Piece, AfterPiece, AfterFailure, AfterForward;
    if e.Forward? { ForwardMoves(s, e.h, Decode(e.input).value.0); }
  }

  lemma StepKeepsInv(s: State, e: Step)
    requires Inv(s) && Enabled(s, e)
    ensures Inv(Next(s, e)) && Next(s, e).convexBacked == s.convexBacked
  {
    hide BytesOk, Enabled, Next, TablesOk;
    StepKeepsTables(s, e);
    var s' := Next(s, e);
    forall t | t in s'.streams ensures BytesOk(s'.streams[t]) && TagsOk(s', t, s'.streams[t]) {
      if t in s.streams {
        StepKeepsStreams(s, e, t);
      } else {
        NewStreamIsEmpty(s, e, t);
        EmptyStream();
      }
    }
  }

  lemma EmptyDoesNotDecode(s: seq<byte>)
    requires |s| < 4
    ensures Decode(s).None?
  {
  }

  lemma EmptyIsFine(convexBacked: bool)
    ensures Inv(Initial(convexBacked))
  {
  }

  lemma {:induction false} RunInv(states: seq<State>, steps: seq<Step>, k: nat)
    requires Run(states, steps) && k < |states|
    ensures Inv(states[k]) && states[k].convexBacked == states[0].convexBacked
  {
    hide Inv, Enabled, Next;
    if k == 0 {
      EmptyIsFine(states[0].convexBacked);
    } else {
      RunInv(states, steps, k - 1);
      StepKeepsInv(states[k-1], steps[k-1]);
    }
  }

  lemma UnfinishedDoesNotDecode(f: Frame, k: nat)
    requires f.Fits() && k < 4
    ensures Decode(Unfinished(f, k)).None?
  {
    if k <= LastByte(f) {
      PartialDoesNotDecode(f, k, 0);
      assert Written(f, k) + Piece(f, k)[..0] == Written(f, k);
    } else {
      EmptyDoesNotDecode([]);
    }
  }

  // ----- Which of its frames a source forwarded, and to whom -----

  /** The frame is the nth its source read, addressed to the device of stream t. */
  ghost predicate WasRead(s: State, t: nat, source: nat, payload: seq<byte>, nth: nat) {
    && t in s.handles && source in s.taken && nth < |s.taken[source]|
    && s.taken[source][nth] == Frame(s.handles[t].deviceID, payload)
  }

  ghost predicate Before(log: seq<Sent>, source: nat, nth: nat) {
    forall i :: 0 <= i < |log| && log[i].source == source ==> log[i].nth < nth
  }

  ghost predicate InOrder(log: seq<Sent>) {
    forall i, j :: 0 <= i < j < |log| && log[i].source == log[j].source ==> log[i].nth < log[j].nth
  }

  ghost predicate AllRead(s: State, t: nat, log: seq<Sent>) {
    forall i :: 0 <= i < |log| ==> WasRead(s, t, log[i].source, log[i].frame.payload, log[i].nth)
  }

  /** A job is the latest frame its source read. */
  ghost predicate JobOk(s: State, h: nat)
    requires h in s.jobs
  {
    var j := s.jobs[h];
    WasRead(s, j.target, h, j.payload, j.nth) && j.nth == |s.taken[h]| - 1
  }

  /** The writer of a stream is doing its source's locked job, and has not logged it before its last byte. */
  ghost predicate WriterOk(s: State, t: nat, w: Writer, log: seq<Sent>) {
    && w.source in s.jobs && s.jobs[w.source] == Job(t, w.frame.payload, w.nth, true)
    && (w.frame.Fits() && w.written <= LastByte(w.frame) ==> Before(log, w.source, w.nth))
  }

  ghost predicate HistoryOk(s: State, t: nat, st: Stream) {
    && InOrder(st.log) && AllRead(s, t, st.log)
    && (st.writer.Some? ==> WriterOk(s, t, st.writer.value, st.log))
    && (forall h :: h in s.jobs && !s.jobs[h].locked ==> Before(st.log, h, s.jobs[h].nth))
  }

  ghost predicate History(s: State) {
    && s.taken.Keys == s.handles.Keys
    && (forall h :: h in s.jobs ==> JobOk(s, h))
    && (forall t :: t in s.streams ==> HistoryOk(s, t, s.streams[t]))
  }

  /** A step that is none of the source's own reads leaves what it read; jobs change only as their own steps say. */
  lemma HistoryMoves(s: State, e: Step)
    requires Enabled(s, e)
    ensures var s' := Next(s, e);
      && (forall t :: t in s.handles ==> t in s'.handles && s'.handles[t] == s.handles[t])
      && (forall h :: h in s.taken ==> h in s'.taken && s.taken[h] <= s'.taken[h])
      && (forall h :: h in s.taken && !(e.Forward? && e.h == h) ==> s'.taken[h] == s.taken[h])
      && (s.taken.Keys == s.handles.Keys ==> s'.taken.Keys == s'.handles.Keys)
      && (forall h :: h in s'.jobs ==>
            || (h in s.jobs && s'.jobs[h] == s.jobs[h] && !(e.Forward? && e.h == h))
            || (h in s.jobs && e == Step.Lock(h) && s'.jobs[h] == s.jobs[h].(locked := true))
            || (e.Forward? && e.h == h && h !in s.jobs && !s'.jobs[h].locked && h in s'.taken))
  {
    TakenMonotone(s, e);
    JobMoves(s, e);
    hide Next, Enabled;
  }

  lemma TakenMonotone(s: State, e: Step)
    requires Enabled(s, e)
    ensures var s' := Next(s, e);
      && (forall t :: t in s.handles ==> t in s'.handles && s'.handles[t] == s.handles[t])
      && (forall h :: h in s.taken ==> h in s'.taken && s.taken[h] <= s'.taken[h])
      && (forall h :: h in s.taken && !(e.Forward? && e.h == h) ==> s'.taken[h] == s.taken[h])
      && (s.taken.Keys == s.handles.Keys ==> s'.taken.Keys == s'.handles.Keys)
  {
    hide BE16, UInt16, Decode, Encode, EncodeAll, Written, Piece, AfterPiece, AfterFailure, AfterForward, SameMeshOwner, CanWrite, CanFail;
    if e.Forward? { ForwardMoves(s, e.h, Decode(e.input).value.0); }
  }

  lemma JobMoves(s: State, e: Step)
    requires Enabled(s, e)
    ensures var s' := Next(s, e);
      forall h :: h in s'.jobs ==>
        || (h in s.jobs && s'.jobs[h] == s.jobs[h] && !(e.Forward? && e.h == h))
        || (h in s.jobs && e == Step.Lock(h) && s'.jobs[h] == s.jobs[h].(locked := true))
        || (e.Forward? && e.h == h && h !in s.jobs && !s'.jobs[h].locked && h in s'.taken)
  {
    hide BE16, UInt16, Decode, Encode, EncodeAll, Written, Piece, AfterPiece, AfterFailure, AfterForward, SameMeshOwner, CanWrite, CanFail;
    if e.Forward? { ForwardMoves(s, e.h, Decode(e.input).value.0); }
  }

  lemma NewJobIsLatest(s: State, h: nat, input: seq<byte>)
    requires TablesOk(s) && Enabled(s, Forward(h, input)) && h in Next(s, Forward(h, input)).jobs
    ensures JobOk(Next(s, Forward(h, input)), h)
  {
    hide Decode, SameMeshOwner, AfterForward;
    ForwardMoves(s, h, Decode(input).value.0);
  }

  lemma WasReadStays(s: State, e: Step, t: nat, source: nat, payload: seq<byte>, nth: nat)
    requires Enabled(s, e) && WasRead(s, t, source, payload, nth)
    ensures WasRead(Next(s, e), t, source, payload, nth)
  {
    HistoryMoves(s, e);
    hide Next, Enabled;
  }

  lemma AllReadStays(s: State, e: Step, t: nat, log: seq<Sent>)
    requires Enabled(s, e) && AllRead(s, t, log)
    ensures AllRead(Next(s, e), t, log)
  {
    hide Next, Enabled, WasRead;
    forall i | 0 <= i < |log| ensures WasRead(Next(s, e), t, log[i].source, log[i].frame.payload, log[i].nth) {
      WasReadStays(s, e, t, log[i].source, log[i].frame.payload, log[i].nth);
    }
  }

  lemma JobsStayOk(s: State, e: Step, h: nat)
    requires TablesOk(s) && History(s) && Enabled(s, e) && h in Next(s, e).jobs
    ensures JobOk(Next(s, e), h)
  {
    hide Next, Enabled, HistoryOk, TablesOk, OneOwner;
    HistoryMoves(s, e);
    if e.Forward? && e.h == h {
      NewJobIsLatest(s, h, e.input);
    } else {
      OldJobStaysOk(s, e, h);
    }
  }

  lemma OldJobStaysOk(s: State, e: Step, h: nat)
    requires Enabled(s, e) && h in s.jobs && JobOk(s, h) && h in Next(s, e).jobs && !(e.Forward? && e.h == h)
    ensures JobOk(Next(s, e), h)
  {
    HistoryMoves(s, e);
    hide Next, Enabled;
  }

  /** Nothing a source has forwarded is younger than the job it has not yet started to write. */
  lemma UnlockedStaysYoungest(s: State, e: Step, t: nat, st: Stream, h: nat)
    requires TablesOk(s) && History(s) && Enabled(s, e) && HistoryOk(s, t, st)
    requires h in Next(s, e).jobs && !Next(s, e).jobs[h].locked
    ensures Before(st.log, h, Next(s, e).jobs[h].nth)
  {
    HistoryMoves(s, e);
    JobsStayOk(s, e, h);
    hide Next, Enabled;
    if !(h in s.jobs && Next(s, e).jobs[h] == s.jobs[h]) {
      forall i | 0 <= i < |st.log| && st.log[i].source == h ensures st.log[i].nth < Next(s, e).jobs[h].nth {
        assert WasRead(s, t, h, st.log[i].frame.payload, st.log[i].nth);
        TakenGrows(s, e, h);
      }
    }
  }

  lemma TakenGrows(s: State, e: Step, h: nat)
    requires Enabled(s, e) && e.Forward? && e.h == h && h in s.taken
    ensures h in Next(s, e).taken && |Next(s, e).taken[h]| == |s.taken[h]| + 1
  {
    hide Decode, SameMeshOwner, AfterForward;
    ForwardMoves(s, h, Decode(e.input).value.0);
  }

  /** A source that is writing to t does nothing else, so its job stays until its write ends. */
  lemma WriterKeepsItsJob(s: State, e: Step, t: nat)
    requires History(s) && Enabled(s, e) && t in s.streams && s.streams[t].writer.Some?
    requires !((e.WritePiece? || e.WriteFails?) && e.t == t)
    ensures var h := s.streams[t].writer.value.source; h in s.jobs && h in Next(s, e).jobs && Next(s, e).jobs[h] == s.jobs[h]
  {
    hide BE16, UInt16, Decode, Encode, EncodeAll, Written, Piece, AfterPiece, AfterFailure, AfterForward, SameMeshOwner, CanFail, JobOk, InOrder, AllRead, Before;
    var w := s.streams[t].writer.value;
    assert HistoryOk(s, t, s.streams[t]);
    if e.WritePiece? || e.WriteFails? { assert HistoryOk(s, e.t, s.streams[e.t]); }
    if e.Forward? { ForwardMoves(s, e.h, Decode(e.input).value.0); }
  }

  lemma PieceJob(s: State, t: nat)
    requires Enabled(s, WritePiece(t)) && s.streams[t].writer.value.source in s.jobs && s.streams[t].writer.value.written < 3
    ensures Next(s, WritePiece(t)).jobs == s.jobs
  {
    hide Piece;
  }

  lemma AppendKeepsOrder(log: seq<Sent>, m: Sent)
    requires InOrder(log) && Before(log, m.source, m.nth)
    ensures InOrder(log + [m])
    ensures forall h, nth :: Before(log, h, nth) && h != m.source ==> Before(log + [m], h, nth)
  {
  }

  lemma PieceKeepsHistory(s: State, t: nat)
    requires TablesOk(s) && History(s) && Enabled(s, WritePiece(t))
    ensures var s' := Next(s, WritePiece(t)); t in s'.streams && HistoryOk(s', t, AfterPiece(s.streams[t]))
  {
    hide Piece, Decode, Written, Encode, JobOk;
    var e := WritePiece(t);
    var s', st := Next(s, e), s.streams[t];
    var w, st' := st.writer.value, AfterPiece(st);
    assert HistoryOk(s, t, st);
    AllReadStays(s, e, t, st.log);
    assert JobOk(s, w.source);
    if w.written == LastByte(w.frame) {
      var m := Sent(w.source, w.frame, w.nth);
      AppendKeepsOrder(st.log, m);
      JobIsRead(s, w.source);
      WasReadStays(s, e, t, w.source, w.frame.payload, w.nth);
    }
    hide Next, Enabled, WasRead;
    HistoryMoves(s, e);
    forall h | h in s'.jobs && !s'.jobs[h].locked ensures Before(st'.log, h, s'.jobs[h].nth) {
      UnlockedStaysYoungest(s, e, t, st, h);
      assert h != w.source;
    }
    if w.written < 3 { PieceJob(s, t); }
  }

  lemma JobIsRead(s: State, h: nat)
    requires h in s.jobs && JobOk(s, h)
    ensures WasRead(s, s.jobs[h].target, h, s.jobs[h].payload, s.jobs[h].nth)
  {
  }

  lemma StepKeepsHistoryOf(s: State, e: Step, t: nat)
    requires TablesOk(s) && History(s) && Enabled(s, e) && t in s.streams
    ensures var s' := Next(s, e); t in s'.streams && HistoryOk(s', t, s'.streams[t])
  {
    hide BE16, UInt16, Decode, Encode, EncodeAll, Written, Piece, SameMeshOwner, Next, Enabled, AllRead, JobOk, Before, InOrder;
    StreamMoves(s, e, t);
    var s' := Next(s, e);
    var st, st' := s.streams[t], s'.streams[t];
    assert HistoryOk(s, t, st);
    AllReadStays(s, e, t, st.log);
    if e == WritePiece(t) {
      PieceKeepsHistory(s, t);
      OwnPiece(s, t);
    } else {
      forall h | h in s'.jobs && !s'.jobs[h].locked ensures Before(st.log, h, s'.jobs[h].nth) {
        UnlockedStaysYoungest(s, e, t, st, h);
      }
      if e.WriteFails? && e.t == t {
        OwnFailure(s, t, e.part);
      } else if st.writer.Some? {
        WriterKeepsItsJob(s, e, t);
      } else if st'.writer.Some? {
        LockedJob(s, e.h);
      }
    }
  }

  lemma OwnPiece(s: State, t: nat)
    requires Enabled(s, WritePiece(t))
    ensures Next(s, WritePiece(t)).streams[t] == AfterPiece(s.streams[t])
  {
  }

  lemma OwnFailure(s: State, t: nat, part: nat)
    requires Enabled(s, WriteFails(t, part))
    ensures Next(s, WriteFails(t, part)).streams[t] == AfterFailure(s.streams[t], part)
  {
  }

  /** The job that gets its target's mutex becomes the writer, younger than all its source has on the stream. */
  lemma LockedJob(s: State, h: nat)
    requires History(s) && Enabled(s, Lock(h)) && Next(s, Lock(h)).streams[s.jobs[h].target].writer.Some?
    ensures var s', t := Next(s, Lock(h)), s.jobs[h].target;
      var w := s'.streams[t].writer.value;
      t in s.streams && s'.streams[t].log == s.streams[t].log && w.source == h && WriterOk(s', t, w, s.streams[t].log)
  {
    hide BE16, Decode, JobOk, AllRead, InOrder;
    assert HistoryOk(s, s.jobs[h].target, s.streams[s.jobs[h].target]);
  }

  lemma StepKeepsHistory(s: State, e: Step)
    requires TablesOk(s) && History(s) && Enabled(s, e)
    ensures History(Next(s, e))
  {
    hide HistoryOk, Enabled, Next, TablesOk, JobOk;
    HistoryMoves(s, e);
    var s' := Next(s, e);
    forall h | h in s'.jobs ensures JobOk(s', h) { JobsStayOk(s, e, h); }
    forall t | t in s'.streams ensures HistoryOk(s', t, s'.streams[t]) {
      if t in s.streams {
        StepKeepsHistoryOf(s, e, t);
      } else {
        NewStreamIsEmpty(s, e, t);
        EmptyHistory(s', t);
      }
    }
  }

  lemma EmptyHistory(s: State, t: nat)
    ensures HistoryOk(s, t, Stream([], None, false, []))
  {
  }

  lemma {:induction false} RunHistory(states: seq<State>, steps: seq<Step>, k: nat)
    requires Run(states, steps) && k < |states|
    ensures History(states[k])
  {
    hide Inv, Enabled, Next;
    if k > 0 {
      RunInv(states, steps, k - 1);
      RunHistory(states, steps, k - 1);
      TablesOfInv(states[k-1]);
      StepKeepsHistory(states[k-1], steps[k-1]);
    }
  }

  lemma TablesOfInv(s: State)
    requires Inv(s)
    ensures TablesOk(s)
  {
  }

  /** The frames the source loop of stream h decoded in a run, in order. */
  function ReadBy(steps: seq<Step>, h: nat): seq<Frame> {
    if steps == [] then []
    else
      var e := steps[|steps|-1];
      ReadBy(steps[..|steps|-1], h) + if e.Forward? && e.h == h && Decode(e.input).Some? then [Decode(e.input).value.0] else []
  }

  lemma {:induction false} TakenIsRead(states: seq<State>, steps: seq<Step>, k: nat, h: nat)
    requires Run(states, steps) && k < |states|
    ensures h in states[k].taken ==> states[k].taken[h] == ReadBy(steps[..k], h)
    ensures h !in states[k].taken ==> ReadBy(steps[..k], h) == []
  {
    hide History, Decode, Next, Enabled, ReadBy;
    ReadByNext(steps, k, h);
    if k > 0 {
      TakenIsRead(states, steps, k - 1, h);
      RunHistory(states, steps, k - 1);
      assert states[k] == Next(states[k-1], steps[k-1]) && Enabled(states[k-1], steps[k-1]);
      ForwardDecodes(states[k-1], steps[k-1]);
      TakenMoves(states[k-1], steps[k-1], h);
    }
  }

  lemma ForwardDecodes(s: State, e: Step)
    requires Enabled(s, e)
    ensures e.Forward? ==> Decode(e.input).Some?
  {
    hide Decode;
  }

  lemma ReadByNext(steps: seq<Step>, k: nat, h: nat)
    requires k <= |steps|
    ensures ReadBy(steps[..k], h) ==
      if k == 0 then []
      else ReadBy(steps[..k-1], h)
           + if steps[k-1].Forward? && steps[k-1].h == h && Decode(steps[k-1].input).Some? then [Decode(steps[k-1].input).value.0] else []
  {
    hide Decode;
    if k > 0 { assert steps[..k][..k-1] == steps[..k-1]; }
  }

  lemma TakenMoves(s: State, e: Step, h: nat)
    requires History(s) && Enabled(s, e)
    ensures var read := if e.Forward? && e.h == h then [Decode(e.input).value.0] else [];
      && (h in Next(s, e).taken ==> Next(s, e).taken[h] == (if h in s.taken then s.taken[h] else []) + read)
      && (h !in Next(s, e).taken ==> h !in s.taken && read == [])
  {
    hide BE16, UInt16, Decode, Encode, EncodeAll, Written, Piece, AfterPiece, AfterFailure, AfterForward, SameMeshOwner, CanWrite, CanFail, HistoryOk, JobOk;
    if e.Forward? { ForwardMoves(s, e.h, Decode(e.input).value.0); }
  }

  /** In every interleaving of concurrent writers, failing ones included, a target stream decodes at every
      moment to exactly the frames completely forwarded to it, in order. */
  lemma StreamDecodesToForwarded(states: seq<State>, steps: seq<Step>, k: nat, t: nat)
    requires Run(states, steps) && k < |states| && t in states[k].streams
    ensures DecodeAll(states[k].streams[t].bytes) == Frames(states[k].streams[t].log)
  {
    RunInv(states, steps, k);
    var st := states[k].streams[t];
    var tail := [];
    if st.broken {
      tail :| Holds(st, tail) && Decode(tail).None?;
    } else if st.writer.Some? {
      tail := Unfinished(st.writer.value.frame, st.writer.value.written);
      UnfinishedDoesNotDecode(st.writer.value.frame, st.writer.value.written);
    } else {
      EmptyDoesNotDecode([]);
    }
    DecodeAllOfEncodeAll(Frames(st.log), tail);
  }

  /** Every frame on a stream is tagged with the registered device id of the stream it came from, and both
      ends have the same owner, a non-empty one on a Convex-backed relay. */
  lemma ForwardedWithinOneOwner(states: seq<State>, steps: seq<Step>, k: nat, t: nat, i: nat)
    requires Run(states, steps) && k < |states| && t in states[k].streams
    requires i < |DecodeAll(states[k].streams[t].bytes)|
    ensures var s := states[k];
      i < |s.streams[t].log| &&
      var source := s.streams[t].log[i].source;
      && source in s.handles && t in s.handles
      && DecodeAll(s.streams[t].bytes)[i].id == s.handles[source].deviceID
      && s.handles[source].userID == s.handles[t].userID
      && (states[0].convexBacked ==> s.handles[t].userID != "")
  {
    RunInv(states, steps, k);
    StreamDecodesToForwarded(states, steps, k, t);
    var st := states[k].streams[t];
    assert TagsOk(states[k], t, st);
    assert Provenance(states[k], t, st.log[i].source, st.log[i].frame);
  }

  /** Every frame on a stream is one its source read, addressed to this very stream's device and carrying the
      payload read; frames of one source stand in the order it read them, none twice. */
  lemma EachFrameWasAddressedHere(states: seq<State>, steps: seq<Step>, k: nat, t: nat, i: nat)
    requires Run(states, steps) && k < |states| && t in states[k].streams
    requires i < |DecodeAll(states[k].streams[t].bytes)|
    ensures var s := states[k];
      var st := s.streams[t];
      && i < |st.log| && t in s.handles
      && var m, read := st.log[i], ReadBy(steps[..k], st.log[i].source);
         && m.nth < |read| && read[m.nth] == Frame(s.handles[t].deviceID, DecodeAll(st.bytes)[i].payload)
         && forall j :: i < j < |st.log| && st.log[j].source == m.source ==> m.nth < st.log[j].nth
  {
    hide Next, Enabled, DecodeAll, ReadBy, InOrder;
    RunHistory(states, steps, k);
    StreamDecodesToForwarded(states, steps, k, t);
    var st := states[k].streams[t];
    assert HistoryOk(states[k], t, st);
    assert WasRead(states[k], t, st.log[i].source, st.log[i].frame.payload, st.log[i].nth);
    TakenIsRead(states, steps, k, st.log[i].source);
    OrderAt(st.log, i);
  }

  lemma OrderAt(log: seq<Sent>, i: nat)
    requires InOrder(log) && i < |log|
    ensures forall j :: i < j < |log| && log[j].source == log[i].source ==> log[i].nth < log[j].nth
  {
  }

  /** A device may be dropped at any moment; a source between two frames may read the next or end. */
  lemma AtAnyMoment(s: State, h: nat, d: seq<byte>, input: seq<byte>)
    ensures Enabled(s, Drop(d))
    ensures h in s.handles && h !in s.jobs ==> Enabled(s, Deregister(h)) && (Decode(input).Some? ==> Enabled(s, Forward(h, input)))
  {
  }

  // ----- What is forwarded, and that it arrives -----

  /** In a reachable state a frame just read is forwarded, with its payload, to the stream its id names if and only
      if the id is not empty and in the table, both streams have the same owner, and on a Convex-backed relay that
      owner is not empty. Otherwise it is dropped; either way nothing but the source's own job and reads moves. */
  lemma ForwardedIff(states: seq<State>, steps: seq<Step>, k: nat, h: nat, input: seq<byte>)
    requires Run(states, steps) && k < |states| && Enabled(states[k], Forward(h, input))
    ensures var s, s', f := states[k], Next(states[k], Forward(h, input)), Decode(input).value.0;
      && h in s.taken
      && (h in s'.jobs <==>
            && f.id != [] && f.id in s.meshStreams && s.meshStreams[f.id] in s.handles
            && s.handles[h].userID == s.handles[s.meshStreams[f.id]].userID
            && (s.convexBacked ==> s.handles[h].userID != ""))
      && (h in s'.jobs ==> s'.jobs[h] == Job(s.meshStreams[f.id], f.payload, |s.taken[h]|, false))
      && s'.jobs - {h} == s.jobs && s' == s.(jobs := s'.jobs, taken := s.taken[h := s.taken[h] + [f]])
  {
    RunInv(states, steps, k);
    RunHistory(states, steps, k);
    hide Decode, BytesOk, HistoryOk, JobOk, TagsOk;
  }

  /** Some write of this source's frame to stream t fails. */
  predicate FailsFor(s: State, e: Step, t: nat, h: nat) {
    e.WriteFails? && e.t == t && t in s.streams && s.streams[t].writer.Some? && s.streams[t].writer.value.source == h
  }

  /** The source's nth frame, for stream t, waits for the mutex, is being written, or is on the stream. */
  ghost predicate OnItsWay(s: State, h: nat, t: nat, f: Frame, nth: nat) {
    && h in s.handles && f.id == s.handles[h].deviceID && t in s.streams
    && ( || (h in s.jobs && s.jobs[h] == Job(t, f.payload, nth, false))
         || (h in s.jobs && s.jobs[h].locked && f.Fits()
             && exists w: nat :: s.streams[t].writer == Some(Writer(h, f, nth, w)) && w <= LastByte(f))
         || Sent(h, f, nth) in s.streams[t].log)
  }

  lemma LogGrows(s: State, e: Step, t: nat, m: Sent)
    requires Enabled(s, e) && t in s.streams && m in s.streams[t].log
    ensures t in Next(s, e).streams && m in Next(s, e).streams[t].log
  {
    StreamMoves(s, e, t);
    hide Next, Enabled, Piece;
  }

  lemma WaitingMoves(s: State, e: Step, h: nat, t: nat, f: Frame, nth: nat)
    requires History(s) && Enabled(s, e) && f.Fits()
    requires h in s.handles && f.id == s.handles[h].deviceID && t in s.streams && h in s.jobs && s.jobs[h] == Job(t, f.payload, nth, false)
    ensures OnItsWay(Next(s, e), h, t, f, nth)
  {
    hide BE16, Decode, AfterForward, Piece, AllRead, InOrder, JobOk, Before;
    var s' := Next(s, e);
    if e == Step.Lock(h) {
      assert s'.streams[t].writer == Some(Writer(h, f, nth, 0));
    } else {
      if e.WritePiece? || e.WriteFails? {
        assert HistoryOk(s, e.t, s.streams[e.t]);
      }
      if e.Forward? { ForwardMoves(s, e.h, Decode(e.input).value.0); }
      assert h in s'.jobs && s'.jobs[h] == s.jobs[h];
      StreamMoves(s, e, t);
    }
  }

  lemma WritingMoves(s: State, e: Step, h: nat, t: nat, f: Frame, nth: nat, w: nat)
    requires History(s) && Enabled(s, e) && f.Fits() && !FailsFor(s, e, t, h)
    requires h in s.handles && f.id == s.handles[h].deviceID && t in s.streams && h in s.jobs && s.jobs[h].locked
    requires s.streams[t].writer == Some(Writer(h, f, nth, w)) && w <= LastByte(f)
    ensures OnItsWay(Next(s, e), h, t, f, nth)
  {
    hide BE16, Decode, AfterForward, Piece, AllRead, InOrder, JobOk, Before;
    var s', st := Next(s, e), s.streams[t];
    if e == WritePiece(t) {
      OwnPiece(s, t);
      if w == LastByte(f) {
        assert AfterPiece(st).log[|st.log|] == Sent(h, f, nth);
      } else {
        assert s'.streams[t].writer == Some(Writer(h, f, nth, w + 1));
      }
    } else {
      WriterKeepsItsJob(s, e, t);
      StreamMoves(s, e, t);
      hide Next;
      assert s'.streams[t].writer == st.writer;
    }
  }

  lemma StepKeepsOnItsWay(s: State, e: Step, h: nat, t: nat, f: Frame, nth: nat)
    requires History(s) && Enabled(s, e) && f.Fits() && OnItsWay(s, h, t, f, nth) && !FailsFor(s, e, t, h)
    ensures OnItsWay(Next(s, e), h, t, f, nth)
  {
    hide Next, Enabled, History, FailsFor;
    if Sent(h, f, nth) in s.streams[t].log {
      LogGrows(s, e, t, Sent(h, f, nth));
      HistoryMoves(s, e);
    } else if h in s.jobs && s.jobs[h] == Job(t, f.payload, nth, false) {
      WaitingMoves(s, e, h, t, f, nth);
    } else {
      var w: nat :| s.streams[t].writer == Some(Writer(h, f, nth, w)) && w <= LastByte(f);
      WritingMoves(s, e, h, t, f, nth, w);
    }
  }

  lemma KeysMove(s: State, e: Step)
    requires Enabled(s, e) && s.handles.Keys == s.streams.Keys
    ensures Next(s, e).handles.Keys == Next(s, e).streams.Keys
  {
    hide BE16, Decode, AfterForward, AfterPiece, AfterFailure, Piece;
    if e.Forward? { ForwardMoves(s, e.h, Decode(e.input).value.0); }
  }

  /** Every registered handle has its stream. */
  lemma {:induction false} EveryHandleHasAStream(states: seq<State>, steps: seq<Step>, k: nat)
    requires Run(states, steps) && k < |states|
    ensures states[k].handles.Keys == states[k].streams.Keys
  {
    hide Next, Enabled;
    if k > 0 {
      EveryHandleHasAStream(states, steps, k - 1);
      KeysMove(states[k-1], steps[k-1]);
    }
  }

  lemma ForwardStarts(states: seq<State>, steps: seq<Step>, k: nat, h: nat)
    requires Run(states, steps) && k + 1 < |states| && steps[k].Forward? && steps[k].h == h && h in states[k+1].jobs
    ensures h in states[k].handles
    ensures var job := states[k+1].jobs[h];
      |job.payload| <= MAX_FRAME && OnItsWay(states[k+1], h, job.target, Frame(states[k].handles[h].deviceID, job.payload), job.nth)
  {
    assert states[k+1] == Next(states[k], steps[k]) && Enabled(states[k], steps[k]);
    ForwardedIff(states, steps, k, h, steps[k].input);
    EveryHandleHasAStream(states, steps, k);
    assert Decode(steps[k].input).value.0.Fits();
    hide Decode, Next, Enabled;
  }

  /** Nothing is lost on the way: over every run, from the moment a frame is forwarded, and as long as none of its
      own writes fails, its source's job for it is still open or the frame, tagged with the sender, is completely
      on the target's stream. A source that goes on to its next frame has delivered this one. */
  lemma {:induction false} ForwardedArrives(states: seq<State>, steps: seq<Step>, k: nat, j: nat, h: nat)
    requires Run(states, steps) && k < j < |states| && steps[k].Forward? && steps[k].h == h && h in states[k+1].jobs
    requires |states[k].handles[h].deviceID| <= MAX_FRAME
    requires forall m :: k < m < j ==> !FailsFor(states[m], steps[m], states[k+1].jobs[h].target, h)
    ensures var job, f := states[k+1].jobs[h], Frame(states[k].handles[h].deviceID, states[k+1].jobs[h].payload);
      && OnItsWay(states[j], h, job.target, f, job.nth)
      && ((h in states[j].jobs ==> states[j].jobs[h].nth != job.nth) ==> Sent(h, f, job.nth) in states[j].streams[job.target].log)
    decreases j
  {
    ForwardStarts(states, steps, k, h);
    var job, f := states[k+1].jobs[h], Frame(states[k].handles[h].deviceID, states[k+1].jobs[h].payload);
    if j > k + 1 {
      hide Next, Enabled, OnItsWay, FailsFor;
      ForwardedArrives(states, steps, k, j - 1, h);
      RunHistory(states, steps, j - 1);
      StepKeepsOnItsWay(states[j-1], steps[j-1], h, job.target, f, job.nth);
    }
    RunHistory(states, steps, j);
    if h in states[j].jobs ==> states[j].jobs[h].nth != job.nth { EndedMeansSent(states[j], h, job.target, f, job.nth); }
  }

  lemma EndedMeansSent(s: State, h: nat, t: nat, f: Frame, nth: nat)
    requires History(s) && OnItsWay(s, h, t, f, nth) && (h in s.jobs ==> s.jobs[h].nth != nth)
    ensures Sent(h, f, nth) in s.streams[t].log
  {
    assert HistoryOk(s, t, s.streams[t]);
    hide JobOk, InOrder, AllRead, Before;
  }

  /** Over every run a stream is its device's entry if and only if it was registered for it and since then no other
      stream was, the device was not dropped, and the stream's own loop has not ended. */
  lemma {:induction false} ListedIff(states: seq<State>, steps: seq<Step>, k: nat, d: seq<byte>, h: nat)
    requires Run(states, steps) && k < |states|
    ensures Lists(states[k], d, h) <==>
      exists g :: 0 <= g < k && steps[g].Register? && steps[g].h == h && steps[g].deviceID == d && StillListed(steps, g, k, d, h)
  {
    hide Next, Enabled, Lists, Unlists, Inv;
    if k == 0 {
      NothingListed(states[0].convexBacked, d, h);
    } else {
      ListedIff(states, steps, k - 1, d, h);
      RunInv(states, steps, k - 1);
      TablesOfInv(states[k-1]);
      var e := steps[k-1];
      ListsAfter(states[k-1], e, d, h);
      if e.Register? && e.h == h && e.deviceID == d {
        assert StillListed(steps, k - 1, k, d, h);
      } else {
        forall g | 0 <= g < k - 1 ensures StillListed(steps, g, k, d, h) <==> StillListed(steps, g, k - 1, d, h) && !Unlists(e, d, h) { }
      }
    }
  }

  ghost predicate StillListed(steps: seq<Step>, g: nat, k: nat, d: seq<byte>, h: nat)
    requires k <= |steps|
  {
    forall m :: g < m < k ==> !Unlists(steps[m], d, h)
  }

  lemma NothingListed(convexBacked: bool, d: seq<byte>, h: nat)
    ensures !Lists(Initial(convexBacked), d, h)
  {
  }

  predicate Breaks(s: State, e: Step, t: nat) {
    e == Deregister(t) || (e.Drop? && Lists(s, e.deviceID, t)) || (e.WriteFails? && e.t == t)
  }

  lemma BrokenAfter(s: State, e: Step, t: nat)
    requires Enabled(s, e) && t in s.streams
    ensures t in Next(s, e).streams && (Next(s, e).streams[t].broken <==> s.streams[t].broken || Breaks(s, e, t))
  {
    hide BE16, UInt16, Decode, Encode, EncodeAll, Written, Piece, AfterForward, SameMeshOwner, CanFail;
    if e.Forward? { ForwardMoves(s, e.h, Decode(e.input).value.0); }
  }

  /** Over every run a stream is dead if and only if its loop ended, its device was dropped while it was the entry, or
      a write to it failed. */
  lemma {:induction false} BrokenIff(states: seq<State>, steps: seq<Step>, k: nat, t: nat)
    requires Run(states, steps) && k < |states| && t in states[k].streams
    ensures states[k].streams[t].broken <==> exists m :: 0 <= m < k && t in states[m].streams && Breaks(states[m], steps[m], t)
  {
    hide Next, Enabled, Breaks;
    if k > 0 {
      if t in states[k-1].streams {
        BrokenIff(states, steps, k - 1, t);
        BrokenAfter(states[k-1], steps[k-1], t);
      } else {
        NewStreamIsEmpty(states[k-1], steps[k-1], t);
        NotThereBefore(states, steps, k - 1, t);
      }
    }
  }

  lemma {:induction false} NotThereBefore(states: seq<State>, steps: seq<Step>, k: nat, t: nat)
    requires Run(states, steps) && k < |states| && t !in states[k].streams
    ensures forall m :: 0 <= m <= k ==> t !in states[m].streams
  {
    hide Next, Enabled;
    if k > 0 {
      if t in states[k-1].streams { StreamMoves(states[k-1], steps[k-1], t); }
      NotThereBefore(states, steps, k - 1, t);
    }
  }

  /** A forwarded frame whose target is free and up is delivered by the lock and the four writes. */
  lemma FourWritesDeliver(s: State, h: nat) returns (s': State)
    requires h in s.handles && h in s.jobs && !s.jobs[h].locked && s.jobs[h].target in s.streams
    requires s.streams[s.jobs[h].target].writer.None? && !s.streams[s.jobs[h].target].broken
    requires Frame(s.handles[h].deviceID, s.jobs[h].payload).Fits()
    ensures var j, f := s.jobs[h], Frame(s.handles[h].deviceID, s.jobs[h].payload);
      && Leads(s, [Step.Lock(h), WritePiece(j.target), WritePiece(j.target), WritePiece(j.target), WritePiece(j.target)], s')
      && j.target in s'.streams && s'.streams[j.target].bytes == s.streams[j.target].bytes + Encode(f)
      && s'.streams[j.target].log == s.streams[j.target].log + [Sent(h, f, j.nth)]
      && s'.jobs == s.jobs - {h}
  {
    hide BE16, Piece, Encode, Written;
    var t, f := s.jobs[h].target, Frame(s.handles[h].deviceID, s.jobs[h].payload);
    var before := s.streams[t].bytes;
    var s0 := Next(s, Step.Lock(h));
    WritesInFull(f);
    var s1 := OneWrite(s0, t, before, f, 0);
    var s2 := OneWrite(s1, t, before, f, 1);
    var s3 := OneWrite(s2, t, before, f, 2);
    s' := OneWrite(s3, t, before, f, 3);
    hide Next, Enabled;
    assert before + [] == before;
    FiveLead(s, Step.Lock(h), s0, WritePiece(t), s1, s2, s3, s');
  }

  /** One of the four writes: the next piece is on the stream; the frame is logged with its last byte. */
  lemma OneWrite(s: State, t: nat, before: seq<byte>, f: Frame, k: nat) returns (s': State)
    requires f.Fits() && k < 4 && t in s.streams && !s.streams[t].broken
    requires var st := s.streams[t];
      st.writer.Some? && st.writer.value.frame == f && st.writer.value.written == k && st.bytes == before + Written(f, k)
    ensures Enabled(s, WritePiece(t)) && s' == Next(s, WritePiece(t)) && t in s'.streams
    ensures var w, st, st' := s.streams[t].writer.value, s.streams[t], s'.streams[t];
      && st'.bytes == before + Written(f, k + 1) && !st'.broken
      && st'.writer == (if k < 3 then Some(w.(written := k + 1)) else None)
      && st'.log == (if k == LastByte(f) then st.log + [Sent(w.source, f, w.nth)] else st.log)
      && s'.jobs == if k < 3 then s.jobs else s.jobs - {w.source}
  {
    hide BE16, Piece, Written;
    WrittenByParts(f, k);
    s' := Next(s, WritePiece(t));
    assert s.streams[t].bytes + Piece(f, k) == before + (Written(f, k) + Piece(f, k));
  }

  ghost predicate Leads(s: State, steps: seq<Step>, s': State)
    decreases steps
  {
    if steps == [] then s == s' else Enabled(s, steps[0]) && Leads(Next(s, steps[0]), steps[1..], s')
  }

  lemma FiveLead(s: State, e: Step, s0: State, w: Step, s1: State, s2: State, s3: State, s4: State)
    requires Enabled(s, e) && s0 == Next(s, e) && Enabled(s0, w) && s1 == Next(s0, w) && Enabled(s1, w) && s2 == Next(s1, w)
    requires Enabled(s2, w) && s3 == Next(s2, w) && Enabled(s3, w) && s4 == Next(s3, w)
    ensures Leads(s, [e, w, w, w, w], s4)
  {
    hide Next, Enabled;
    LeadsStep(s3, w, [], s4);
    LeadsStep(s2, w, [w], s4);
    LeadsStep(s1, w, [w, w], s4);
    LeadsStep(s0, w, [w, w, w], s4);
    LeadsStep(s, e, [w, w, w, w], s4);
    assert [w] + [] == [w] && [w] + [w] == [w, w] && [w] + [w, w] == [w, w, w] && [w] + [w, w, w] == [w, w, w, w] && [e] + [w, w, w, w] == [e, w, w, w, w];
  }

  lemma LeadsStep(s: State, e: Step, rest: seq<Step>, s': State)
    requires Enabled(s, e) && Leads(Next(s, e), rest, s')
    ensures Leads(s, [e] + rest, s')
  {
    assert ([e] + rest)[1..] == rest;
  }

  /** A lookup never sends a frame to a device other than the one addressed: the table's keys are the
      registered ids of the streams they name. */
  lemma TableNamesItsDevices(states: seq<State>, steps: seq<Step>, k: nat, d: seq<byte>)
    requires Run(states, steps) && k < |states| && d in states[k].meshStreams
    ensures states[k].meshStreams[d] in states[k].handles && states[k].handles[states[k].meshStreams[d]].deviceID == d
  {
    RunInv(states, steps, k);
  }

  // ----- The stream objects -----

  /** A QUIC stream as an io.Writer: it takes `capacity` more bytes, then fails. */
  class ByteStream {
    var bytes: seq<byte>
    var capacity: nat

    constructor (capacity: nat)
      ensures bytes == [] && this.capacity == capacity
    {
      bytes := [];
      this.capacity := capacity;
    }

    method Write(b: seq<byte>) returns (ok: bool)
      modifies this
      ensures ok == (|b| <= old(capacity))
      ensures bytes == old(bytes) + if ok then b else b[..old(capacity)]
      ensures capacity == if ok then old(capacity) - |b| else 0
    {
      ok := |b| <= capacity;
      bytes := bytes + if ok then b else b[..capacity];
      capacity := if ok then capacity - |b| else 0;
    }
  }

  /** encodeMeshFrame: all of the frame or, on a failing stream, a strict prefix; nothing if it is too large. */
  method EncodeMeshFrame(w: ByteStream, f: Frame) returns (ok: bool)
    modifies w
    ensures ok ==> f.Fits() && w.bytes == old(w.bytes) + Encode(f)
    ensures !ok && f.Fits() ==> |Encode(f)| > old(w.capacity) && w.bytes == old(w.bytes) + Encode(f)[..old(w.capacity)]
    ensures !f.Fits() ==> !ok && w.bytes == old(w.bytes)
  {
    hide BE16, UInt16;
    if |f.id| > MAX_FRAME || |f.payload| > MAX_FRAME { return false; }
    ok := w.Write(BE16(|f.id|));
    if !ok { return false; }
    ok := w.Write(f.id);
    if !ok { return false; }
    ok := w.Write(BE16(|f.payload|));
    if !ok { return false; }
    ok := w.Write(f.payload);
  }

  /** decodeMeshFrame: four reads in order. */
  method DecodeMeshFrame(s: seq<byte>) returns (r: Option<(Frame, nat)>)
    ensures r == Decode(s)
  {
    if |s| < 2 { return None; }
    var pos := 2;
    var idLen := UInt16(s[..2]);
    if |s| < pos + idLen { return None; }
    var id := s[pos..pos + idLen];
    pos := pos + idLen;
    if |s| < pos + 2 { return None; }
    var plLen := UInt16(s[pos..pos + 2]);
    pos := pos + 2;
    if |s| < pos + plLen { return None; }
    return Some((Frame(id, s[pos..pos + plLen]), pos + plLen));
  }
}
