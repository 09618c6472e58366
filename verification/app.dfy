/**
 Model of the pure helpers of the desktop front end (apps/cadence-desktop/src/App.tsx): the
 `m:ss` time formatter, the file name shown for the current track, the slider's maximum and
 the commands the transport buttons send.

 Numbers are integers; JavaScript's `Math.floor`, truncating `%`, `String` and `padStart`
 are written out for them.
 */
module App {
  import opened Results
  import Desktop

  predicate IsDigit(c: char) { '0' <= c <= '9' }

  predicate AllDigits(s: string) { forall i :: 0 <= i < |s| ==> IsDigit(s[i]) }

  function DigitChar(d: nat): (c: char)
    requires d < 10
    ensures IsDigit(c) && DigitValue(c) == d
  {
    ('0' as int + d) as char
  }

  function DigitValue(c: char): int
  {
    c as int - '0' as int
  }

  /** The decimal numeral of `n`, without leading zeros. */
  function Decimal(n: nat): (s: string)
    ensures |s| >= 1 && AllDigits(s)
    ensures |s| > 1 ==> s[0] != '0'
    decreases n
  {
    if n < 10 then [DigitChar(n)] else Decimal(n / 10) + [DigitChar(n % 10)]
  }

  /** The value of a string of decimal digits. */
  function ParseDecimal(s: string): int
    decreases |s|
  {
    if |s| == 0 then 0 else ParseDecimal(s[..|s| - 1]) * 10 + DigitValue(s[|s| - 1])
  }

  /** Reading back a numeral gives the number it was written from. */
  lemma {:induction false} ParseDecimalOfDecimal(n: nat)
    ensures ParseDecimal(Decimal(n)) == n
    decreases n
  {
    if n >= 10 {
      var s := Decimal(n);
      assert s[..|s| - 1] == Decimal(n / 10);
      ParseDecimalOfDecimal(n / 10);
    }
  }

  /** JavaScript's `String(n)` for an integer. */
  function JsString(n: int): string
  {
    if n < 0 then "-" + Decimal(-n) else Decimal(n)
  }

  /** JavaScript's `%`, which truncates: the remainder takes the dividend's sign. */
  function JsRem(a: int, b: int): (r: int)
    requires b > 0
    ensures a >= 0 ==> r == a % b
    ensures a < 0 ==> -b < r <= 0 && -r == (-a) % b
  {
    if a >= 0 then a % b else -((-a) % b)
  }

  /** `s.padStart(width, fill)`. */
  function PadStart(s: string, width: nat, fill: char): (r: string)
    ensures |r| == if |s| >= width then |s| else width
    ensures r[|r| - |s|..] == s
    ensures forall i :: 0 <= i < |r| - |s| ==> r[i] == fill
  {
    if |s| >= width then s else seq(width - |s|, _ => fill) + s
  }

  /** `fmt`: a position in milliseconds as minutes and two-digit seconds, `m:ss`. Division by
      a positive number in Dafny rounds down, as `Math.floor` does. For a non-negative
      position the text is the whole minutes and the remaining seconds of its whole seconds;
      a negative one starts with a minus sign. */
  function Fmt(ms: int): (r: string)
    ensures ms >= 0 ==> r == Clock(ms / 1000 / 60, ms / 1000 % 60)
    ensures ms < 0 ==> |r| > 0 && r[0] == '-'
  {
    FmtSeconds(ms / 1000)
  }

  /** The `m:ss` text for whole minutes `m` and seconds `sec`, as `fmt` builds it. */
  function Clock(m: nat, sec: nat): string
  {
    Decimal(m) + ":" + PadStart(Decimal(sec), 2, '0')
  }

  /** The value of a two-character numeral. */
  lemma ParseTwo(a: char, b: char)
    ensures ParseDecimal([a, b]) == DigitValue(a) * 10 + DigitValue(b)
  {
    assert [a, b][..1] == [a];
    assert [a][..0] == [];
    assert ParseDecimal([a]) == ParseDecimal([]) * 10 + DigitValue(a);
  }

  /** Padding a numeral below 100 to two digits does not change its value. */
  lemma TwoDigits(n: nat)
    requires n < 100
    ensures var p := PadStart(Decimal(n), 2, '0');
            |p| == 2 && IsDigit(p[0]) && IsDigit(p[1]) && ParseDecimal(p) == n
  {
    var p := PadStart(Decimal(n), 2, '0');
    if n < 10 {
      var d := DigitChar(n);
      assert Decimal(n) == [d];
      assert seq(1, _ => '0') == ['0'];
      assert p == ['0', d];
      ParseTwo('0', d);
    } else {
      var hi, lo := DigitChar(n / 10), DigitChar(n % 10);
      assert Decimal(n / 10) == [hi];
      assert Decimal(n) == [hi, lo];
      assert p == [hi, lo];
      ParseTwo(hi, lo);
    }
  }

  /** The two fields of a text with one colon three characters from the end. */
  lemma ColonFields(minutes: string, seconds: string)
    requires |seconds| == 2
    ensures var r := minutes + ":" + seconds;
            var k := |r| - 3;
            k == |minutes| && r[k] == ':' && r[..k] == minutes && r[k + 1..] == seconds
  {
  }

  /** Whole minutes, a colon, and exactly two digits of seconds, which read back as the two
      numbers the text was built from. */
  lemma ClockFields(m: nat, sec: nat)
    requires sec < 60
    ensures var r := Clock(m, sec);
            var k := |r| - 3;
            && |r| >= 4 && r[k] == ':'
            && AllDigits(r[..k]) && (k > 1 ==> r[0] != '0')
            && IsDigit(r[k + 1]) && IsDigit(r[k + 2])
            && ParseDecimal(r[..k]) == m
            && ParseDecimal(r[k + 1..]) == sec
  {
    var minutes := Decimal(m);
    var seconds := PadStart(Decimal(sec), 2, '0');
    TwoDigits(sec);
    ParseDecimalOfDecimal(m);
    ColonFields(minutes, seconds);
  }

  /** For a non-negative position, `fmt` writes whole minutes, a colon, and exactly two
      digits of seconds in 00..59, which together give back the whole seconds of `ms`. */
  lemma FmtClock(ms: nat)
    ensures var r := Fmt(ms);
            var k := |r| - 3;
            && |r| >= 4 && r[k] == ':'
            && AllDigits(r[..k])
            && IsDigit(r[k + 1]) && IsDigit(r[k + 2])
            && 0 <= ParseDecimal(r[k + 1..]) < 60
            && ParseDecimal(r[..k]) * 60 + ParseDecimal(r[k + 1..]) == ms / 1000
  {
    var s := ms / 1000;
    var m, sec := s / 60, s % 60;
    DivModSixty(s);
    ClockFields(m, sec);
  }

  lemma DivModSixty(s: nat)
    ensures s / 60 * 60 + s % 60 == s && 0 <= s % 60 < 60
  {
  }

  /** Every position within one whole second is shown the same way. */
  lemma FmtConstantWithinSecond(ms: int, ms': int)
    requires ms / 1000 == ms' / 1000
    ensures Fmt(ms) == Fmt(ms')
  {
  }

  /** The text `fmt` builds from whole seconds `s`. */
  function FmtSeconds(s: int): string
  {
    JsString(s / 60) + ":" + PadStart(JsString(JsRem(s, 60)), 2, '0')
  }

  /** Negative whole seconds: both fields carry a minus sign, except that a multiple of 60
      shows `00` seconds, `-0` printing as `0`. */
  lemma NegativeSeconds(s: int)
    requires s < 0
    ensures var minutes := -(s / 60);
            var sec := (-s) % 60;
            && minutes > 0
            && (sec != 0 ==> FmtSeconds(s) == "-" + Decimal(minutes) + ":-" + Decimal(sec))
            && (sec == 0 ==> FmtSeconds(s) == "-" + Decimal(minutes) + ":00")
  {
    var sec := (-s) % 60;
    var minutes := JsString(s / 60);
    assert minutes == "-" + Decimal(-(s / 60));
    if sec != 0 {
      var field := JsString(JsRem(s, 60));
      assert field == "-" + Decimal(sec);
      assert PadStart(field, 2, '0') == field;
    } else {
      assert JsRem(s, 60) == 0;
      assert seq(1, _ => '0') == ['0'];
      assert PadStart(JsString(0), 2, '0') == "00";
    }
  }

  /** A negative position, which only a wall clock stepping backwards can produce. The minutes
      are rounded down, so they carry a minus sign; the seconds keep the sign of the truncating
      `%`, so they carry one too unless the whole seconds are a multiple of 60. */
  lemma FmtNegative(ms: int)
    requires ms < 0
    ensures var s := ms / 1000;
            var minutes := -(s / 60);
            var sec := (-s) % 60;
            && minutes > 0
            && (sec != 0 ==> Fmt(ms) == "-" + Decimal(minutes) + ":-" + Decimal(sec))
            && (sec == 0 ==> Fmt(ms) == "-" + Decimal(minutes) + ":00")
  {
    var s := ms / 1000;
    assert s < 0;
    NegativeSeconds(s);
  }

  // ---------------------------------------------------------------------------------------
  // The file name shown for the current track
  // ---------------------------------------------------------------------------------------

  const BACKSLASH: char := '\\'

  /** `s.split(sep)` for a one-character separator: the pieces between separators, in order,
      empty pieces included. */
  function Split(s: string, sep: char): (parts: seq<string>)
    ensures |parts| >= 1
    decreases |s|
  {
    if |s| == 0 then [""]
    else
      var init := Split(s[..|s| - 1], sep);
      var c := s[|s| - 1];
      if c == sep then init + [""]
      else init[..|init| - 1] + [init[|init| - 1] + [c]]
  }

  /** `parts.join(sep)`, the inverse of `Split`. */
  function Join(parts: seq<string>, sep: char): string
    requires |parts| >= 1
    decreases |parts|
  {
    if |parts| == 1 then parts[0] else Join(parts[..|parts| - 1], sep) + [sep] + parts[|parts| - 1]
  }

  /** Joining one more piece adds a separator and the piece. */
  lemma JoinSnoc(parts: seq<string>, x: string, sep: char)
    requires |parts| >= 1
    ensures Join(parts + [x], sep) == Join(parts, sep) + [sep] + x
  {
    assert (parts + [x])[..|parts|] == parts;
  }

  /** Extending the last piece extends the joined text. */
  lemma JoinExtendLast(parts: seq<string>, t: string, sep: char)
    requires |parts| >= 1
    ensures Join(parts[..|parts| - 1] + [parts[|parts| - 1] + t], sep) == Join(parts, sep) + t
  {
    var n := |parts|;
    var front, y := parts[..n - 1], parts[n - 1];
    if n > 1 {
      JoinSnoc(front, y + t, sep);
      JoinSnoc(front, y, sep);
      assert front + [y] == parts;
    }
  }

  /** Joining the pieces of a split gives back the string. */
  lemma {:induction false} JoinSplit(s: string, sep: char)
    ensures Join(Split(s, sep), sep) == s
    decreases |s|
  {
    if |s| > 0 {
      var s', c := s[..|s| - 1], s[|s| - 1];
      var init := Split(s', sep);
      var n := |init|;
      JoinSplit(s', sep);
      if c == sep {
        JoinSnoc(init, "", sep);
      } else {
        JoinExtendLast(init, [c], sep);
      }
      assert s == s' + [c];
    }
  }

  /** No piece of a split contains the separator. */
  lemma {:induction false} SplitPieceAvoidsSep(s: string, sep: char, i: nat)
    requires i < |Split(s, sep)|
    ensures sep !in Split(s, sep)[i]
    decreases |s|
  {
    if |s| > 0 {
      var s', c := s[..|s| - 1], s[|s| - 1];
      var init := Split(s', sep);
      var n := |init|;
      var parts := Split(s, sep);
      if c == sep {
        if i < n {
          SplitPieceAvoidsSep(s', sep, i);
          assert parts[i] == init[i];
        }
      } else if i < n - 1 {
        SplitPieceAvoidsSep(s', sep, i);
        assert parts[i] == init[i];
      } else {
        SplitPieceAvoidsSep(s', sep, n - 1);
        assert parts[i] == init[n - 1] + [c];
      }
    }
  }

  /** Appending a character to a string and to one of its suffixes keeps the suffix relation
      and the character before the suffix. */
  lemma SuffixSnoc(s: string, t: string, c: char)
    requires |t| <= |s| && s[|s| - |t|..] == t
    ensures var s1, t1 := s + [c], t + [c];
            s1[|s1| - |t1|..] == t1 && (|t| < |s| ==> s1[|s1| - |t1| - 1] == s[|s| - |t| - 1])
  {
  }

  /** The last piece of a split is the text after the last separator: a suffix of `s` without
      the separator, preceded by a separator unless it is all of `s`. */
  lemma {:induction false} LastPiece(s: string, sep: char)
    ensures var parts := Split(s, sep);
            var last := parts[|parts| - 1];
            && sep !in last
            && |last| <= |s| && s[|s| - |last|..] == last
            && (|last| < |s| ==> s[|s| - |last| - 1] == sep)
    decreases |s|
  {
    var parts := Split(s, sep);
    SplitPieceAvoidsSep(s, sep, |parts| - 1);
    if |s| > 0 {
      var s', c := s[..|s| - 1], s[|s| - 1];
      assert s == s' + [c];
      var init := Split(s', sep);
      LastPiece(s', sep);
      if c != sep {
        var last' := init[|init| - 1];
        assert parts[|parts| - 1] == last' + [c];
        SuffixSnoc(s', last', c);
      }
    }
  }

  /** `Array.prototype.at(-1)`. */
  function AtLast(parts: seq<string>): (r: Option<string>)
    ensures r.Some? <==> |parts| > 0
    ensures |parts| > 0 ==> r.value == parts[|parts| - 1]
  {
    if |parts| == 0 then None else Some(parts[|parts| - 1])
  }

  /** The `filename` shown for the current track: nothing for a missing or empty path (both
      are falsy), otherwise the text after the last backslash. */
  function Filename(trackPath: Option<string>): (r: Option<string>)
    ensures r.None? <==> trackPath.None? || trackPath.value == ""
    ensures r.Some? ==> BACKSLASH !in r.value
    ensures r.Some? ==> var p := trackPath.value; var name := r.value;
              |name| <= |p| && p[|p| - |name|..] == name &&
              (|name| < |p| ==> p[|p| - |name| - 1] == BACKSLASH)
    ensures r.Some? && BACKSLASH !in trackPath.value ==> r.value == trackPath.value
  {
    match trackPath
    case None => None
    case Some(p) =>
      if |p| == 0 then None
      else
        LastPiece(p, BACKSLASH);
        Some(match AtLast(Split(p, BACKSLASH)) case Some(name) => name case None => p)
  }

  // ---------------------------------------------------------------------------------------
  // Slider and buttons
  // ---------------------------------------------------------------------------------------

  /** The slider's `max`: the duration, or 1 while it is unknown (0 is falsy). */
  function SliderMax(durationMs: nat): (m: nat)
    ensures m >= 1
    ensures durationMs != 0 ==> m == durationMs
    ensures durationMs == 0 ==> m == 1
  {
    if durationMs != 0 then durationMs else 1
  }

  /** The command the pause button sends. */
  function ToggleCommand(paused: bool): (cmd: string)
    ensures cmd == "resume" <==> paused
    ensures cmd == "pause" <==> !paused
  {
    if paused then "resume" else "pause"
  }

  /** The player message that `invoke(cmd)` ends in, for the commands that take no
      arguments; `play` and `advance` carry arguments and other names reach no command. */
  function CommandMessage(cmd: string): (m: Option<Desktop.PlayerMessage>)
    ensures m == Some(Desktop.Pause) <==> cmd == "pause"
    ensures m == Some(Desktop.Resume) <==> cmd == "resume"
    ensures m == Some(Desktop.Stop) <==> cmd == "stop"
    ensures m == Some(Desktop.Status) <==> cmd == "status"
    ensures m.None? <==> cmd !in {"pause", "resume", "stop", "status"}
  {
    match cmd
    case "pause" => Some(Desktop.Pause)
    case "resume" => Some(Desktop.Resume)
    case "stop" => Some(Desktop.Stop)
    case "status" => Some(Desktop.Status)
    case _ => None
  }

  /**
   The pause button shows the `paused` of the last status snapshot and sends the command that
   reaches the thread as `Resume` when it shows paused and as `Pause` otherwise; the thread
   then applies the player's `resume` or `pause`. If the player keeps its track and records a
   pause (no last playback time) or a resume (some), the next snapshot shows the flag flipped.
   */
  lemma ToggleFlips<S>(b: Desktop.Backend<S>, s: S)
    ensures var shown := Desktop.StatusOf(b, s).paused;
            var m := CommandMessage(ToggleCommand(shown));
            && m == Some(if shown then Desktop.Resume else Desktop.Pause)
            && Desktop.Step(b, s, m.value) == (if shown then b.resume(s) else b.pause(s), Desktop.NoReply)
    ensures var shown := Desktop.StatusOf(b, s).paused;
            var next := if shown then b.resume(s) else b.pause(s);
            var t := b.currentTrack(next);
            t.Some? && (t.value.lastPlaybackTime.None? <==> !shown) ==>
              Desktop.StatusOf(b, next).paused == !shown
  {
  }

  /** `handleAdvance`: the `deltaMs` sent for a skip of `seconds`. */
  function AdvanceDeltaMs(seconds: int): (deltaMs: int)
    ensures deltaMs % 1000 == 0 && deltaMs / 1000 == seconds
    ensures (deltaMs < 0 <==> seconds < 0) && (deltaMs == 0 <==> seconds == 0)
  {
    seconds * 1000
  }

  /** The skip buttons go back and forward by ten seconds. */
  const SKIP_BACK_SECONDS: int := -10
  const SKIP_FORWARD_SECONDS: int := 10

  lemma SkipButtonDeltas()
    ensures AdvanceDeltaMs(SKIP_BACK_SECONDS) == -10000
    ensures AdvanceDeltaMs(SKIP_FORWARD_SECONDS) == 10000
  {
  }
}
