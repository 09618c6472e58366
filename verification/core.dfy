/**
 Model of the playback core (`Player` in core/cadence-core/src/lib.rs).

 The player owns one audio sink. The audio library underneath is not modelled: a sink is
 reduced to its queue of sources and its paused flag, and everything the library computes
 (opening a file, decoding it, reporting its total duration, skipping samples) arrives as an
 input to the operation that uses it.
 */
module Core {
  import opened Results

  const U64_MODULUS: nat := 0x1_0000_0000_0000_0000
  const NANOS_PER_MILLI: nat := 1_000_000

  /** Rust's `u64`. */
  type U64 = x: nat | x < 0x1_0000_0000_0000_0000

  /** A span of time at the nanosecond resolution of Rust's `Duration`. */
  datatype Duration = Duration(nanos: nat)

  /** `Duration::from_millis`. */
  function FromMillis(ms: nat): (d: Duration)
    ensures d.nanos / NANOS_PER_MILLI == ms && d.nanos % NANOS_PER_MILLI == 0
  {
    Duration(ms * NANOS_PER_MILLI)
  }

  /** `d.as_millis() as u64`: whole milliseconds, truncated to 64 bits by the cast. */
  function AsMillisU64(d: Duration): (ms: U64)
    ensures d.nanos < U64_MODULUS * NANOS_PER_MILLI ==>
              ms * NANOS_PER_MILLI <= d.nanos < (ms + 1) * NANOS_PER_MILLI
  {
    (d.nanos / NANOS_PER_MILLI) % U64_MODULUS
  }

  /** A decoded audio stream queued in the sink: the file it was decoded from and how far
      into the audio it starts. */
  datatype Source = Source(path: string, startMs: nat)

  /** The audio sink: the sources waiting to be played, in order, and whether playback is paused. */
  datatype Sink = Sink(queue: seq<Source>, paused: bool)
  {
    /** `Sink::stop`: drops everything queued. */
    function Stop(): Sink { this.(queue := []) }

    /** `Sink::append`: queues a source behind the existing ones. */
    function Append(s: Source): Sink { this.(queue := queue + [s]) }

    /** `Sink::play`. */
    function Play(): Sink { this.(paused := false) }

    /** `Sink::pause`. */
    function Pause(): Sink { this.(paused := true) }
  }

  /** What opening a path and handing it to the decoder produced, at one moment. */
  datatype Decoding =
    | CannotOpen(cause: string)
    | CannotDecode(cause: string)
    | Decoded(totalDuration: Option<Duration>)

  /** The player's errors. The first two carry the context the probe attaches; `Raw` is a
      library error propagated without context. */
  datatype Error =
    | OpenFailed(path: string, cause: string)
    | Unsupported(path: string, cause: string)
    | Raw(cause: string)
    | NoDevice(cause: string)
    | SinkFailed(cause: string)

  /** A loaded track: its path and, when the decoder reports one, its length in milliseconds. */
  datatype TrackInfo = TrackInfo(path: string, durationMs: Option<U64>)

  /** The player; the output stream and its handle are not modelled. */
  datatype Player = Player(sink: Sink)

  /** `{:?}` of a path: the path between double quotes. */
  function Quoted(path: string): (q: string)
    ensures |q| == |path| + 2 && q[0] == '"' && q[|q| - 1] == '"' && q[1..|q| - 1] == path
  {
    "\"" + path + "\""
  }

  /** The text of an error as `to_string` shows it: the outermost context when there is one,
      otherwise the library's own message. */
  function Message(e: Error): (m: string)
    ensures e.Raw? ==> m == e.cause
    ensures e.OpenFailed? ==> m == "Failed to open " + Quoted(e.path)
    ensures e.Unsupported? ==> m == "Unsupported/invalid audio: " + Quoted(e.path)
  {
    match e
    case OpenFailed(path, _) => "Failed to open " + Quoted(path)
    case Unsupported(path, _) => "Unsupported/invalid audio: " + Quoted(path)
    case Raw(cause) => cause
    case NoDevice(_) => "No default output device available"
    case SinkFailed(_) => "Failed to create sink"
  }

  /** `Player::new_default`. `stream` and `sink` are what acquiring the default output stream
      and creating a sink on it produced (`None` when they succeeded, the cause when not). */
  function NewDefault(stream: Option<string>, sink: Option<string>): (r: Result<Player, Error>)
    ensures r.Ok? <==> stream.None? && sink.None?
    ensures r.Ok? ==> r.value.sink.queue == [] && !r.value.sink.paused
    ensures stream.Some? ==> r == Err(NoDevice(stream.value))
    ensures stream.None? && sink.Some? ==> r == Err(SinkFailed(sink.value))
  {
    match stream
    case Some(cause) => Err(NoDevice(cause))
    case None =>
      match sink
      case Some(cause) => Err(SinkFailed(cause))
      case None => Ok(Player(Sink([], false)))
  }

  /** The duration the probe reports, in whole milliseconds. */
  function ProbedMillis(total: Option<Duration>): (ms: Option<U64>)
    ensures ms.Some? <==> total.Some?
    ensures total.Some? ==> ms.value == AsMillisU64(total.value)
  {
    match total
    case None => None
    case Some(d) => Some(AsMillisU64(d))
  }

  /**
   `Player::load_and_play`. The file is opened and decoded twice: once as a probe, to read the
   duration, and once more, after the sink has been stopped, for the source that is queued.
   `probe` and `reopen` are what those two attempts produced.
   */
  function LoadAndPlay(p: Player, path: string, probe: Decoding, reopen: Decoding): (r: (Player, Result<TrackInfo, Error>))
    // A failed probe returns before the sink is touched, with the path in the message.
    ensures probe.CannotOpen? ==> r == (p, Err(OpenFailed(path, probe.cause)))
    ensures probe.CannotDecode? ==> r == (p, Err(Unsupported(path, probe.cause)))
    // A failed second attempt comes after the sink was stopped: the old queue is gone.
    ensures probe.Decoded? && !reopen.Decoded? ==> r == (Player(p.sink.Stop()), Err(Raw(reopen.cause)))
    // Success replaces the queue by the one new source and unpauses, whatever was there before.
    ensures r.1.Ok? <==> probe.Decoded? && reopen.Decoded?
    ensures r.1.Ok? ==> r.0.sink == Sink([Source(path, 0)], false)
    ensures r.1.Ok? ==> r.1.value.path == path
    ensures r.1.Ok? ==> (r.1.value.durationMs.Some? <==> probe.totalDuration.Some?)
  {
    match probe
    case CannotOpen(cause) => (p, Err(OpenFailed(path, cause)))
    case CannotDecode(cause) => (p, Err(Unsupported(path, cause)))
    case Decoded(total) =>
      var dur := ProbedMillis(total);
      var stopped := p.sink.Stop();
      match reopen
      case CannotOpen(cause) => (Player(stopped), Err(Raw(cause)))
      case CannotDecode(cause) => (Player(stopped), Err(Raw(cause)))
      case Decoded(_) =>
        (Player(stopped.Append(Source(path, 0)).Play()), Ok(TrackInfo(path, dur)))
  }

  /** `Player::pause`. */
  function Pause(p: Player): (r: Player)
    ensures r.sink.paused && r.sink.queue == p.sink.queue
  {
    Player(p.sink.Pause())
  }

  /** `Player::resume`. */
  function Resume(p: Player): (r: Player)
    ensures !r.sink.paused && r.sink.queue == p.sink.queue
  {
    Player(p.sink.Play())
  }

  /** `Player::stop`. */
  function Stop(p: Player): (r: Player)
    ensures r.sink.queue == [] && r.sink.paused == p.sink.paused
  {
    Player(p.sink.Stop())
  }

  /** `Player::is_paused`. */
  function IsPaused(p: Player): bool { p.sink.paused }

  /** `Player::empty`. */
  function Empty(p: Player): bool { |p.sink.queue| == 0 }

  /**
   `Player::seek_approx`: decodes the file again, skips `toMs` of audio and queues what is left
   in place of the current queue. `decoding` is what opening and decoding produced and
   `skipped` how much audio the skip got through before the end of the stream.
   */
  function SeekApprox(p: Player, path: string, toMs: U64, decoding: Decoding, skipped: Duration): (r: (Player, Result<(), Error>))
    // Open or decode failures leave the sink untouched.
    ensures !decoding.Decoded? ==> r == (p, Err(Raw(decoding.cause)))
    // Running into the end of the stream counts as success and leaves the state `Stop` leaves.
    ensures decoding.Decoded? && skipped.nanos < FromMillis(toMs).nanos ==> r == (Stop(p), Ok(()))
    // Otherwise the skipped source replaces the queue and playback resumes, even if it was paused.
    ensures decoding.Decoded? && skipped.nanos >= FromMillis(toMs).nanos ==>
              r == (Player(Sink([Source(path, toMs)], false)), Ok(()))
  {
    match decoding
    case CannotOpen(cause) => (p, Err(Raw(cause)))
    case CannotDecode(cause) => (p, Err(Raw(cause)))
    case Decoded(_) =>
      var to := FromMillis(toMs);
      if skipped.nanos < to.nanos then
        (Stop(p), Ok(()))
      else
        var src := Source(path, toMs);
        assert p.sink.Stop().Append(src).queue == [src];
        (Player(p.sink.Stop().Append(src).Play()), Ok(()))
  }

  // ---------------------------------------------------------------------------------------
  // Properties relating the operations
  // ---------------------------------------------------------------------------------------

  /** A successful load ends in the same state from every starting state: queued sources and
      the paused flag before the call do not matter. */
  lemma LoadReplacesWholesale(p: Player, q: Player, path: string, probe: Decoding, reopen: Decoding)
    requires LoadAndPlay(p, path, probe, reopen).1.Ok?
    ensures LoadAndPlay(p, path, probe, reopen) == LoadAndPlay(q, path, probe, reopen)
    ensures !IsPaused(LoadAndPlay(p, path, probe, reopen).0)
    ensures !Empty(LoadAndPlay(p, path, probe, reopen).0)
  {
  }

  /** Loading is not atomic: when the second open or decode fails, the error is returned with
      the previous queue already dropped, exactly as after `Stop`. */
  lemma LoadFailureAfterProbeIsStop(p: Player, path: string, total: Option<Duration>, reopen: Decoding)
    requires !reopen.Decoded?
    ensures LoadAndPlay(p, path, Decoded(total), reopen).0 == Stop(p)
    ensures |p.sink.queue| > 0 ==> LoadAndPlay(p, path, Decoded(total), reopen).0 != p
    ensures Message(LoadAndPlay(p, path, Decoded(total), reopen).1.error) == reopen.cause
  {
  }

  /** The reported duration is the probe's; the second decoding's duration is never read. */
  lemma LoadReportsProbedDuration(p: Player, path: string, d: Duration, total: Option<Duration>)
    requires d.nanos < U64_MODULUS * NANOS_PER_MILLI
    ensures var r := LoadAndPlay(p, path, Decoded(Some(d)), Decoded(total)).1;
            r.Ok? && r.value.durationMs.Some? &&
            r.value.durationMs.value == d.nanos / NANOS_PER_MILLI
  {
  }

  /** `pause` and `resume` are idempotent and undo each other's flag without touching the queue. */
  lemma PauseResumeFlags(p: Player)
    ensures Pause(Pause(p)) == Pause(p) && Resume(Resume(p)) == Resume(p)
    ensures IsPaused(Pause(Resume(p))) && !IsPaused(Resume(Pause(p)))
    ensures Resume(Pause(p)).sink.queue == p.sink.queue
    ensures !IsPaused(p) ==> Resume(Pause(p)) == p
  {
  }

  /** `stop` is idempotent and leaves the player empty. */
  lemma StopIdempotent(p: Player)
    ensures Stop(Stop(p)) == Stop(p) && Empty(Stop(p))
  {
  }

  /** A seek that does not reach the end leaves a paused player playing: the pause state is
      not preserved across a seek. */
  lemma SeekUnpauses(p: Player, path: string, toMs: U64, total: Option<Duration>, skipped: Duration)
    requires IsPaused(p)
    requires skipped.nanos >= toMs * NANOS_PER_MILLI
    ensures var r := SeekApprox(p, path, toMs, Decoded(total), skipped);
            r.1.Ok? && !IsPaused(r.0) && r.0.sink.queue == [Source(path, toMs)]
  {
  }

  /** The sink a seek leaves does not depend on where the player was: a successful seek that
      reaches its target is the same as a successful load followed by skipping the audio. */
  lemma SeekIsLoadAtOffset(p: Player, path: string, toMs: U64, total: Option<Duration>, skipped: Duration)
    requires skipped.nanos >= toMs * NANOS_PER_MILLI
    ensures var s := SeekApprox(p, path, toMs, Decoded(total), skipped).0;
            var l := LoadAndPlay(p, path, Decoded(total), Decoded(total)).0;
            s.sink.paused == l.sink.paused && |s.sink.queue| == |l.sink.queue| == 1 &&
            s.sink.queue[0] == l.sink.queue[0].(startMs := toMs)
  {
  }
}
