/**
 Model of the front end's position display (apps/cadence-desktop/src/hooks/usePlayback.ts).

 The hook keeps an anchor (a position, the wall-clock time it was taken and whether the
 track was playing) and extrapolates the displayed position from it between polls of the
 back end. React state, refs and timers reduce to one immutable `Hook` value and four step
 functions; `Date.now()` is the `now` parameter.
 */
module Playback {
  import opened Results
  import Desktop

  /** The extrapolation anchor (`startRef`). */
  datatype Anchor = Anchor(positionMs: nat, wallClock: nat, playing: bool)

  /** The hook's refs and state: `drag` is `dragRef`, `None` when no drag is in progress. */
  datatype Hook = Hook(
    anchor: Anchor,
    drag: Option<nat>,
    displayMs: int,
    durationMs: nat,
    isPaused: bool,
    isAnyTrackActive: bool,
    isDragging: bool,
    trackPath: Option<string>)

  /** The hook's state before anything has happened. */
  function Init(): (h: Hook)
    ensures Valid(h) && h.drag.None? && h.trackPath.None? && h.isPaused
    ensures h.anchor == Anchor(0, 0, false) && h.displayMs == 0 && h.durationMs == 0
  {
    Hook(Anchor(0, 0, false), None, 0, 0, true, false, false, None)
  }

  /** Consistency between the hook's fields that every step keeps. */
  predicate Valid(h: Hook)
  {
    && (h.isDragging <==> h.drag.Some?)
    && (h.isAnyTrackActive <==> h.trackPath.Some?)
    && (!h.isAnyTrackActive ==> h.isPaused)
  }

  /** The position an anchor predicts at `now`: the anchored position plus the time elapsed
      since it was taken while playing, the anchored position alone otherwise. */
  function Extrapolate(a: Anchor, now: nat): int
  {
    a.positionMs + (if a.playing then now - a.wallClock else 0)
  }

  /** `poll`, once the status has arrived at time `now`. */
  function Poll(h: Hook, status: Desktop.StatusResponse, now: nat): (r: Hook)
    // The anchor is replaced only when no drag is in progress.
    ensures h.drag.None? ==> r.anchor == Anchor(status.positionMs, now, !status.paused && status.path.Some?)
    ensures h.drag.Some? ==> r.anchor == h.anchor
    ensures r.isPaused <==> status.paused || status.path.None?
    ensures r.isAnyTrackActive <==> status.path.Some?
    ensures h.drag.None? ==> (r.anchor.playing ==> !r.isPaused)
    ensures r.trackPath == status.path
    ensures status.durationMs.Some? ==> r.durationMs == status.durationMs.value
    ensures status.durationMs.None? ==> r.durationMs == 0
    ensures r.drag == h.drag && r.isDragging == h.isDragging && r.displayMs == h.displayMs
  {
    var anchor := if h.drag.None?
      then Anchor(status.positionMs, now, !status.paused && status.path.Some?)
      else h.anchor;
    h.(anchor := anchor,
       isPaused := status.paused || status.path.None?,
       isAnyTrackActive := status.path.Some?,
       trackPath := status.path,
       durationMs := match status.durationMs case Some(d) => d case None => 0)
  }

  /** One animation frame at time `now`. */
  function Tick(h: Hook, now: nat): (r: Hook)
    ensures h.drag.Some? ==> r.displayMs == h.drag.value
    ensures h.drag.None? && h.anchor.playing ==>
              r.displayMs == h.anchor.positionMs + (now - h.anchor.wallClock)
    ensures h.drag.None? && !h.anchor.playing ==> r.displayMs == h.anchor.positionMs
    ensures r.(displayMs := h.displayMs) == h
  {
    match h.drag
    case Some(ms) => h.(displayMs := ms)
    case None => h.(displayMs := Extrapolate(h.anchor, now))
  }

  /** `onDragChange`: the thumb moved to `ms`. */
  function DragChange(h: Hook, ms: nat): (r: Hook)
    ensures r.drag == Some(ms) && r.isDragging
    ensures r.(drag := h.drag, isDragging := h.isDragging) == h
  {
    h.(drag := Some(ms), isDragging := true)
  }

  /** `onDragCommit`: the thumb was released at `ms` at time `now`. The seek request it sends
      has no effect in this model. */
  function DragCommit(h: Hook, ms: nat, now: nat): (r: Hook)
    ensures r.drag.None? && !r.isDragging
    ensures r.anchor == Anchor(ms, now, h.anchor.playing)
    ensures r.(drag := h.drag, isDragging := h.isDragging, anchor := h.anchor) == h
  {
    h.(drag := None, isDragging := false, anchor := Anchor(ms, now, h.anchor.playing))
  }

  // ---------------------------------------------------------------------------------------
  // Properties
  // ---------------------------------------------------------------------------------------

  /** The initial state is consistent and displays 0 at every time. */
  lemma InitDisplaysZero(now: nat)
    ensures Valid(Init()) && Init().isPaused && !Init().isAnyTrackActive
    ensures Init().anchor == Anchor(0, 0, false) && Init().drag.None?
    ensures Tick(Init(), now).displayMs == 0
  {
  }

  /** Every step keeps the hook consistent. */
  lemma StepsPreserveValid(h: Hook, status: Desktop.StatusResponse, ms: nat, now: nat)
    requires Valid(h)
    ensures Valid(Poll(h, status, now)) && Valid(Tick(h, now))
    ensures Valid(DragChange(h, ms)) && Valid(DragCommit(h, ms, now))
  {
  }

  /** While a track plays, the displayed position never moves backwards as time passes. */
  lemma TickNonDecreasing(h: Hook, t1: nat, t2: nat)
    requires h.drag.None? && h.anchor.playing && t1 <= t2
    ensures Tick(h, t1).displayMs <= Tick(h, t2).displayMs
    ensures Tick(h, t2).displayMs - Tick(h, t1).displayMs == t2 - t1
  {
  }

  /** While not playing, the displayed position does not depend on the time. */
  lemma TickFrozenWhenNotPlaying(h: Hook, t1: nat, t2: nat)
    requires !h.anchor.playing
    ensures Tick(h, t1).displayMs == Tick(h, t2).displayMs
  {
  }

  /** Right after a poll the display shows the reported position, and then advances with the
      clock exactly when the status says a track is playing. */
  lemma PollThenTick(h: Hook, status: Desktop.StatusResponse, now: nat, later: nat)
    requires h.drag.None? && now <= later
    ensures Tick(Poll(h, status, now), now).displayMs == status.positionMs
    ensures var playing := !status.paused && status.path.Some?;
            Tick(Poll(h, status, now), later).displayMs ==
              status.positionMs + (if playing then later - now else 0)
  {
  }

  /** During a drag the display shows the drag value, whatever polls arrive meanwhile. */
  lemma DragFreezesDisplay(h: Hook, ms: nat, status: Desktop.StatusResponse, t1: nat, t2: nat)
    ensures Tick(DragChange(h, ms), t2).displayMs == ms
    ensures Tick(Poll(DragChange(h, ms), status, t1), t2).displayMs == ms
    ensures Poll(DragChange(h, ms), status, t1).anchor == h.anchor
  {
  }

  /** Releasing the thumb shows the released position at once and extrapolates from it. */
  lemma CommitThenTick(h: Hook, ms: nat, now: nat, later: nat)
    requires now <= later
    ensures Tick(DragCommit(h, ms, now), now).displayMs == ms
    ensures Tick(DragCommit(h, ms, now), later).displayMs ==
              ms + (if h.anchor.playing then later - now else 0)
  {
  }

  /** When the back end's thread is gone, polling shows no track, paused, at position 0. */
  lemma DeadThreadPoll(h: Hook, now: nat, later: nat)
    requires h.drag.None?
    ensures var r := Poll(h, Desktop.StatusCommand(None), now);
            r.isPaused && !r.isAnyTrackActive && r.trackPath.None? && r.durationMs == 0 &&
            Tick(r, later).displayMs == 0
  {
  }

  /**
   A drag keeps the anchor of the last poll before it, and a commit keeps that anchor's
   `playing`. So a track paused by another window while the thumb was held is extrapolated
   as playing after the release, until the next poll, although the hook reports it paused.
   */
  lemma StaleAnchorAfterDrag(h: Hook, paused: Desktop.StatusResponse, t: nat, ms: nat, now: nat, later: nat)
    requires h.drag.Some? && h.anchor.playing
    requires paused.paused && paused.path.Some?
    requires now <= later
    ensures var r := DragCommit(Poll(h, paused, t), ms, now);
            && r.isPaused && r.anchor.playing
            && Tick(r, later).displayMs == ms + (later - now)
  {
  }
}
