/**
 Model of the desktop back end (apps/cadence-desktop/src-tauri/src/lib.rs): one player thread
 that owns the player and handles `PlayerMessage`s one at a time, in the order they were sent,
 and the UI commands that send a message and wait for its reply.

 The thread drives `cadence_core::Player` through `current_track`, `current_position_ms` and
 `advance_or_rewind`, which core/cadence-core/src/lib.rs does not define. The player is
 therefore kept abstract, as a `Backend` record of functions over an abstract state `S`.
 Channels and the thread itself reduce to a left fold over the message sequence; a reply
 that never arrives is an explicit input.
 */
module Desktop {
  import opened Results
  import Core

  /** Rust's `i64`. */
  type I64 = x: int | -0x8000_0000_0000_0000 <= x < 0x8000_0000_0000_0000

  /** The error a UI command reports when its reply never arrives. */
  const THREAD_DIED: string := "Player thread died"

  /** The player's record of the loaded track; `lastPlaybackTime` is `None` while paused. */
  datatype CurrentTrack = CurrentTrack(info: Core.TrackInfo, lastPlaybackTime: Option<nat>)

  /** The operations of the player the thread drives, each an uninterpreted function of the
      player's state. */
  datatype Backend<!S> = Backend(
    currentTrack: S -> Option<CurrentTrack>,
    currentPositionMs: S -> Core.U64,
    loadAndPlay: (S, string) -> (S, Result<Core.TrackInfo, Core.Error>),
    advanceOrRewind: (S, I64) -> (S, Result<(), Core.Error>),
    pause: S -> S,
    resume: S -> S,
    stop: S -> S)

  /** The messages the UI commands send to the player thread; the reply channels are implicit
      in `Reply`. */
  datatype PlayerMessage =
    | Play(path: string)
    | Pause
    | Resume
    | Stop
    | Advance(deltaMs: I64)
    | Status

  /** The snapshot a `Status` message is answered with. */
  datatype StatusResponse = StatusResponse(
    path: Option<string>,
    durationMs: Option<Core.U64>,
    positionMs: Core.U64,
    paused: bool)

  /** What the thread sends back for one message. */
  datatype Reply =
    | NoReply
    | PlayReply(track: Result<Core.TrackInfo, string>)
    | AdvanceReply(done: Result<(), string>)
    | StatusReply(status: StatusResponse)

  /** `map_err(|e| e.to_string())`. */
  function ErrorText<T>(r: Result<T, Core.Error>): (t: Result<T, string>)
    ensures t.Ok? <==> r.Ok?
    ensures r.Ok? ==> t.value == r.value
    ensures r.Err? ==> t.error == Core.Message(r.error)
  {
    match r
    case Ok(v) => Ok(v)
    case Err(e) => Err(Core.Message(e))
  }

  /** The snapshot built when a `Status` message is handled. */
  function StatusOf<S>(b: Backend<S>, s: S): (r: StatusResponse)
    ensures r.positionMs == b.currentPositionMs(s)
    ensures r.paused <==> b.currentTrack(s).Some? && b.currentTrack(s).value.lastPlaybackTime.None?
    ensures b.currentTrack(s).None? ==> r.path.None? && r.durationMs.None? && !r.paused
    ensures b.currentTrack(s).Some? ==>
              r.path == Some(b.currentTrack(s).value.info.path) &&
              r.durationMs == b.currentTrack(s).value.info.durationMs
  {
    var track := b.currentTrack(s);
    var paused := match track
      case Some(t) => t.lastPlaybackTime.None?
      case None => false;
    StatusResponse(
      match track case Some(t) => Some(t.info.path) case None => None,
      match track case Some(t) => t.info.durationMs case None => None,
      b.currentPositionMs(s),
      paused)
  }

  /** Whether a reply is of the kind the message's channel carries (`NoReply` for the
      fire-and-forget messages). */
  predicate Answers(m: PlayerMessage, reply: Reply)
  {
    match m
    case Play(_) => reply.PlayReply?
    case Advance(_) => reply.AdvanceReply?
    case Status => reply.StatusReply?
    case _ => reply.NoReply?
  }

  /** The body of the thread's receive loop: handles one message. */
  function Step<S>(b: Backend<S>, s: S, m: PlayerMessage): (r: (S, Reply))
    ensures Answers(m, r.1)
    ensures r.1.NoReply? <==> m.Pause? || m.Resume? || m.Stop?
    // The fire-and-forget messages drive the same-named player operation.
    ensures m.Pause? ==> r.0 == b.pause(s)
    ensures m.Resume? ==> r.0 == b.resume(s)
    ensures m.Stop? ==> r.0 == b.stop(s)
    // A status request changes nothing.
    ensures m.Status? ==> r.0 == s && r.1.status == StatusOf(b, s)
    // Play and Advance reply with the player's own result, errors as their messages.
    ensures m.Play? ==> r.0 == b.loadAndPlay(s, m.path).0 &&
                        r.1.track == ErrorText(b.loadAndPlay(s, m.path).1)
    ensures m.Advance? ==> r.0 == b.advanceOrRewind(s, m.deltaMs).0 &&
                           r.1.done == ErrorText(b.advanceOrRewind(s, m.deltaMs).1)
  {
    match m
    case Play(path) =>
      var (s', result) := b.loadAndPlay(s, path);
      (s', PlayReply(ErrorText(result)))
    case Pause => (b.pause(s), NoReply)
    case Resume => (b.resume(s), NoReply)
    case Stop => (b.stop(s), NoReply)
    case Advance(delta) =>
      var (s', result) := b.advanceOrRewind(s, delta);
      (s', AdvanceReply(ErrorText(result)))
    case Status => (s, StatusReply(StatusOf(b, s)))
  }

  /** The messages handled in order, as a left fold of `Step`: the final state and one reply
      per message. */
  function Run<S>(b: Backend<S>, s: S, inbox: seq<PlayerMessage>): (r: (S, seq<Reply>))
    ensures |r.1| == |inbox|
    ensures forall i :: 0 <= i < |inbox| ==> Answers(inbox[i], r.1[i])
    decreases |inbox|
  {
    if |inbox| == 0 then (s, [])
    else
      var before := Run(b, s, inbox[..|inbox| - 1]);
      var last := Step(b, before.0, inbox[|inbox| - 1]);
      (last.0, before.1 + [last.1])
  }

  /** The player thread's receive loop over the messages it is sent. */
  method Serve<S>(b: Backend<S>, s0: S, inbox: seq<PlayerMessage>) returns (s: S, replies: seq<Reply>)
    ensures (s, replies) == Run(b, s0, inbox)
  {
    s, replies := s0, [];
    var i := 0;
    while i < |inbox|
      invariant 0 <= i <= |inbox|
      invariant (s, replies) == Run(b, s0, inbox[..i])
    {
      var step := Step(b, s, inbox[i]);
      assert inbox[..i + 1][..i] == inbox[..i];
      s, replies := step.0, replies + [step.1];
      i := i + 1;
    }
    assert inbox[..|inbox|] == inbox;
  }

  /** Handling two batches in a row is handling their concatenation. */
  lemma {:induction false} RunAppend<S>(b: Backend<S>, s: S, xs: seq<PlayerMessage>, ys: seq<PlayerMessage>)
    ensures var first := Run(b, s, xs);
            var second := Run(b, first.0, ys);
            Run(b, s, xs + ys) == (second.0, first.1 + second.1)
    decreases |ys|
  {
    if |ys| == 0 {
      assert xs + ys == xs;
      assert Run(b, s, xs).1 + [] == Run(b, s, xs).1;
    } else {
      var ys' := ys[..|ys| - 1];
      assert (xs + ys)[..|xs + ys| - 1] == xs + ys';
      assert (xs + ys)[|xs + ys| - 1] == ys[|ys| - 1];
      RunAppend(b, s, xs, ys');
      var first := Run(b, s, xs);
      var mid := Run(b, first.0, ys');
      var last := Step(b, mid.0, ys[|ys| - 1]);
      assert Run(b, first.0, ys) == (last.0, mid.1 + [last.1]);
      assert Run(b, s, xs + ys) == (last.0, (first.1 + mid.1) + [last.1]);
      assert (first.1 + mid.1) + [last.1] == first.1 + (mid.1 + [last.1]);
    }
  }

  /** Each reply is computed from the state left by exactly the messages sent before it. */
  lemma ReplyAt<S>(b: Backend<S>, s: S, inbox: seq<PlayerMessage>, i: nat)
    requires i < |inbox|
    ensures Run(b, s, inbox).1[i] == Step(b, Run(b, s, inbox[..i]).0, inbox[i]).1
  {
    RunAppend(b, s, inbox[..i + 1], inbox[i + 1..]);
    assert inbox[..i + 1] + inbox[i + 1..] == inbox;
    assert inbox[..i + 1][..i] == inbox[..i];
  }

  // ---------------------------------------------------------------------------------------
  // The UI commands: send a message, wait for the reply, fall back when none arrives
  // ---------------------------------------------------------------------------------------

  /** The result of `play` or `advance` from what its reply receiver got: the thread's
      answer, or the "thread died" error when the channel closed without one. */
  function Received<T>(received: Option<Result<T, string>>): (r: Result<T, string>)
    ensures received.None? ==> r == Err(THREAD_DIED)
    ensures received.Some? ==> r == received.value
  {
    match received
    case None => Err(THREAD_DIED)
    case Some(result) => result
  }

  /** The snapshot the `status` command reports when no reply arrives. */
  const NO_STATUS: StatusResponse := StatusResponse(None, None, 0, false)

  /** The `status` command's result from what its reply receiver got. */
  function StatusCommand(received: Option<StatusResponse>): (r: StatusResponse)
    ensures received.None? ==> r.path.None? && r.durationMs.None? && r.positionMs == 0 && !r.paused
    ensures received.Some? ==> r == received.value
  {
    match received
    case None => NO_STATUS
    case Some(status) => status
  }

  /** What a UI command returns to the front end. */
  datatype Response =
    | Done
    | Track(track: Result<Core.TrackInfo, string>)
    | Advanced(done: Result<(), string>)
    | Snapshot(status: StatusResponse)

  /** The UI command that sends `m`, given what its reply receiver got (`None` when the
      thread dropped the reply channel without answering). */
  function Respond(m: PlayerMessage, received: Option<Reply>): (r: Response)
    ensures r.Done? <==> m.Pause? || m.Resume? || m.Stop?
    ensures received.None? && m.Play? ==> r == Track(Err(THREAD_DIED))
    ensures received.None? && m.Advance? ==> r == Advanced(Err(THREAD_DIED))
    ensures received.None? && m.Status? ==> r == Snapshot(NO_STATUS)
  {
    match m
    case Play(_) =>
      Track(Received(match received case Some(PlayReply(t)) => Some(t) case _ => None))
    case Advance(_) =>
      Advanced(Received(match received case Some(AdvanceReply(d)) => Some(d) case _ => None))
    case Status =>
      Snapshot(StatusCommand(match received case Some(StatusReply(st)) => Some(st) case _ => None))
    case _ => Done
  }

  /**
   One UI command against the player thread. `thread` is the player the thread owns, or
   `None` when the thread is gone (its `Player::new().expect(..)` panicked): then the message
   is dropped unhandled, no reply arrives, and the thread stays gone.
   */
  function Invoke<S>(b: Backend<S>, thread: Option<S>, m: PlayerMessage): (r: (Option<S>, Response))
    ensures thread.None? ==> r == (None, Respond(m, None))
    ensures thread.Some? ==> r.0 == Some(Step(b, thread.value, m).0)
  {
    match thread
    case None => (None, Respond(m, None))
    case Some(s) =>
      var (s', reply) := Step(b, s, m);
      (Some(s'), Respond(m, Some(reply)))
  }

  /** With the thread alive, a command returns exactly the player's result; no fallback is used. */
  lemma LiveCommandCarriesPlayerResult<S>(b: Backend<S>, s: S, m: PlayerMessage)
    ensures m.Play? ==> Invoke(b, Some(s), m).1 == Track(ErrorText(b.loadAndPlay(s, m.path).1))
    ensures m.Advance? ==> Invoke(b, Some(s), m).1 == Advanced(ErrorText(b.advanceOrRewind(s, m.deltaMs).1))
    ensures m.Status? ==> Invoke(b, Some(s), m) == (Some(s), Snapshot(StatusOf(b, s)))
  {
  }

  /** With the thread gone, every command gets its fallback, whatever came before. */
  lemma DeadThreadFallbacks<S>(b: Backend<S>, m: PlayerMessage)
    ensures m.Play? ==> Invoke(b, None, m) == (None, Track(Err(THREAD_DIED)))
    ensures m.Advance? ==> Invoke(b, None, m) == (None, Advanced(Err(THREAD_DIED)))
    ensures m.Status? ==> Invoke(b, None, m) == (None, Snapshot(StatusResponse(None, None, 0, false)))
    ensures !(m.Play? || m.Advance? || m.Status?) ==> Invoke(b, None, m) == (None, Done)
  {
  }

  /**
   FIFO handling of `Play(path)`, `Pause`, `Status`: whenever loading succeeds and the player
   keeps the loaded track and records a pause on it, the status reply names the track and
   says it is paused, because the three messages are handled in the order they were sent.
   */
  lemma PlayPauseStatus<S>(b: Backend<S>, s: S, path: string)
    requires b.loadAndPlay(s, path).1.Ok?
    requires var loaded := b.loadAndPlay(s, path).0;
             var t := b.currentTrack(b.pause(loaded));
             t.Some? && t.value.info.path == path && t.value.lastPlaybackTime.None?
    ensures var replies := Run(b, s, [Play(path), Pause, Status]).1;
            replies[2].StatusReply? && replies[2].status.paused &&
            replies[2].status.path == Some(path)
  {
    var inbox := [Play(path), Pause, Status];
    ReplyAt(b, s, inbox, 2);
    assert inbox[..2] == [Play(path), Pause];
    assert [Play(path), Pause][..1] == [Play(path)];
    assert [Play(path)][..0] == [];
    var loaded := b.loadAndPlay(s, path).0;
    assert Run(b, s, [Play(path)]).0 == loaded;
    assert Run(b, s, inbox[..2]).0 == b.pause(loaded);
  }
}
