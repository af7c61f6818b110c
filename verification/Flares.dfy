/**
 The pool of flares: two linked lists threaded through a fixed set of structs. Flares in the active
 list fade in and out over frames; the others wait in the inactive list to be used.
 */
module Flares {
  import opened Vertex

  const MAX_FLARES := 128

  /** What tells active flares apart. */
  datatype Key = Key(surface: int, frameSceneNum: int, inPortal: bool)

  /** All the fields of a flare but its link. */
  datatype FlareState = FlareState(
    key: Key,
    addedFrame: int,
    fogNum: int,
    fadeTime: int,
    visible: bool,
    drawIntensity: real,
    windowX: int,
    windowY: int,
    eyeZ: real,
    origin: Vec3,
    color: Vec3)

  /** A struct of the pool: its link, and its fields. */
  class Flare {
    var next: Flare?
    var state: FlareState

    constructor ()
      ensures next == null && state == CLEARED
    {
      next, state := null, CLEARED;
    }

    method Sight(s: Sighting)
      modifies this`state
      ensures state == Sighted(old(state), s)
    {
      if state.addedFrame != s.frameCount - 1 {
        state := state.(visible := false, fadeTime := s.time - 2000);
      }
      state := state.(addedFrame := s.frameCount, fogNum := s.fogNum);
      state := state.(origin := s.origin, color := s.color);
      state := state.(color := Scaled(state.color, s.facing));
      state := state.(windowX := s.windowX, windowY := s.windowY, eyeZ := s.eyeZ);
    }

    /** Whether the flare stays in the pool, and whether it is to be drawn. */
    method Judge(view: View) returns (stays: bool, visible: bool)
      modifies this`state
      ensures state == Rendered(old(state), view)
      ensures stays == Stays(old(state), view) && visible == (stays && view.Shows(old(state)))
    {
      if state.addedFrame < view.frameCount - 1 {
        return false, false;
      }
      state := state.(drawIntensity := 0.0);
      if state.key.frameSceneNum == view.frameSceneNum && state.key.inPortal == view.inPortal {
        Test(view);
        return state.drawIntensity != 0.0, state.drawIntensity != 0.0;
      }
      return true, false;
    }

    method Test(view: View)
      modifies this`state
      ensures state == Tested(old(state), view)
    {
      var fade: real;
      if view.seen(state.windowX, state.windowY, state.eyeZ) {
        if !state.visible {
          state := state.(visible := true, fadeTime := view.time - 1);
        }
        fade := (view.time - state.fadeTime) as real / 1000.0 * view.flareFade;
      } else {
        if state.visible {
          state := state.(visible := false, fadeTime := view.time - 1);
        }
        fade := 1.0 - (view.time - state.fadeTime) as real / 1000.0 * view.flareFade;
      }
      if fade < 0.0 {
        fade := 0.0;
      }
      if fade > 1.0 {
        fade := 1.0;
      }
      state := state.(drawIntensity := fade);
    }
  }

  // CLEARED is what zeroing the struct's memory leaves in it.
  const CLEARED := FlareState(Key(0, 0, false), 0, 0, 0, false, 0.0, 0, 0, 0.0, Vec3(0.0, 0.0, 0.0), Vec3(0.0, 0.0, 0.0))

  /** A flare surface as it is drawn: what is known about it, the view and the frame. */
  datatype Sighting = Sighting(
    key: Key,
    frameCount: int,
    time: int,
    fogNum: int,
    facing: real,
    onScreen: bool,
    origin: Vec3,
    color: Vec3,
    windowX: int,
    windowY: int,
    eyeZ: real)

  /** The view whose flares are rendered; `seen` stands for the read-back of the depth buffer. */
  datatype View = View(
    frameSceneNum: int,
    inPortal: bool,
    frameCount: int,
    time: int,
    flareFade: real,
    seen: (int, int, real) -> bool)
  {
    predicate Shows(f: FlareState) {
      f.key.frameSceneNum == frameSceneNum && f.key.inPortal == inPortal
    }
  }

  // ---------------------------------------------------------------- what happens to one flare

  function Clamp(fade: real): real {
    if fade < 0.0 then 0.0 else if fade > 1.0 then 1.0 else fade
  }

  /** How far a flare fades in or out from the given time on. */
  function FadeSince(since: int, view: View): real {
    (view.time - since) as real / 1000.0 * view.flareFade
  }

  /** The outcome of a visibility test. */
  function Tested(f: FlareState, view: View): FlareState {
    var visible := view.seen(f.windowX, f.windowY, f.eyeZ);
    var fadeTime := if visible == f.visible then f.fadeTime else view.time - 1;
    var change := FadeSince(fadeTime, view);
    f.(visible := visible, fadeTime := fadeTime, drawIntensity := Clamp(if visible then change else 1.0 - change))
  }

  predicate Stale(f: FlareState, view: View) {
    f.addedFrame < view.frameCount - 1
  }

  /** What rendering the view's flares makes of an active flare. */
  function Rendered(f: FlareState, view: View): FlareState {
    if Stale(f, view) then f
    else if view.Shows(f) then Tested(f, view)
    else f.(drawIntensity := 0.0)
  }

  /** A flare stays active if it was added lately and, when it is of this view, can still be seen. */
  predicate Stays(f: FlareState, view: View) {
    !Stale(f, view) && (view.Shows(f) ==> Tested(f, view).drawIntensity != 0.0)
  }

  /** An active flare sighted again. */
  function Sighted(f: FlareState, s: Sighting): FlareState {
    var known := f.addedFrame == s.frameCount - 1;
    FlareState(f.key, s.frameCount, s.fogNum, if known then f.fadeTime else s.time - 2000, known && f.visible,
               f.drawIntensity, s.windowX, s.windowY, s.eyeZ, s.origin, Scaled(s.color, s.facing))
  }

  function Scaled(v: Vec3, d: real): Vec3 {
    Vec3(v.x * d, v.y * d, v.z * d)
  }

  /** A frame in the life of a flare: it is sighted, and its view is rendered. */
  datatype Frame = Frame(s: Sighting, view: View)

  function AfterFrame(f: FlareState, frame: Frame): FlareState {
    Rendered(Sighted(f, frame.s), frame.view)
  }

  function AfterFrames(f: FlareState, frames: seq<Frame>): FlareState {
    if frames == [] then f else AfterFrame(AfterFrames(f, frames[..|frames| - 1]), frames[|frames| - 1])
  }

  /** Frames one after the other in each of which the flare is sighted and can be seen. */
  ghost predicate SeenThroughout(f: FlareState, frames: seq<Frame>) {
    forall k :: 0 <= k < |frames| ==> SeenIn(f, frames[k], f.addedFrame + 1 + k)
  }

  ghost predicate SeenIn(f: FlareState, frame: Frame, frameCount: int) {
    && frame.s.frameCount == frame.view.frameCount == frameCount
    && frame.view.Shows(f) && frame.view.seen(frame.s.windowX, frame.s.windowY, frame.s.eyeZ)
    && frame.view.flareFade > 0.0 && frame.view.time > f.fadeTime
  }

  /** How bright a flare is that has been seen since the given time. */
  function Brightness(since: int, view: View): real {
    Clamp(FadeSince(since, view))
  }

  /**
   A visible flare that is seen in every frame of a run is never restarted and never leaves the pool;
   its brightness is that of the time since it became visible.
   */
  lemma {:induction false} FadesInWhileSeen(f: FlareState, frames: seq<Frame>)
    requires f.visible && SeenThroughout(f, frames)
    ensures
      var g := AfterFrames(f, frames);
      g.visible && g.fadeTime == f.fadeTime && g.key == f.key && g.addedFrame == f.addedFrame + |frames|
    ensures frames != [] ==>
      var n := |frames| - 1;
      && Stays(Sighted(AfterFrames(f, frames[..n]), frames[n].s), frames[n].view)
      && AfterFrames(f, frames).drawIntensity == Brightness(f.fadeTime, frames[n].view) > 0.0
  {
    if frames != [] {
      var n := |frames| - 1;
      FadesInWhileSeen(f, frames[..n]);
      assert SeenIn(f, frames[n], f.addedFrame + 1 + n);
      FadesOn(AfterFrames(f, frames[..n]), frames[n]);
    }
  }

  lemma FadesOn(f: FlareState, frame: Frame)
    requires f.visible && SeenIn(f, frame, f.addedFrame + 1)
    ensures Stays(Sighted(f, frame.s), frame.view)
    ensures AfterFrame(f, frame).visible && AfterFrame(f, frame).fadeTime == f.fadeTime && AfterFrame(f, frame).key == f.key
    ensures AfterFrame(f, frame).addedFrame == frame.s.frameCount
    ensures AfterFrame(f, frame).drawIntensity == Brightness(f.fadeTime, frame.view) > 0.0
  {
    var g, view := Sighted(f, frame.s), frame.view;
    assert g.visible && g.fadeTime == f.fadeTime && !Stale(g, view) && view.Shows(g);
    assert view.seen(g.windowX, g.windowY, g.eyeZ);
    SeenIsBright(f.fadeTime, view);
    TestedWhileSeen(g, view);
  }

  /** Frames one after the other in each of which the flare is sighted, but hidden. */
  ghost predicate HiddenThroughout(f: FlareState, frames: seq<Frame>) {
    forall k :: 0 <= k < |frames| ==> HiddenIn(f, frames[k], f.addedFrame + 1 + k)
  }

  ghost predicate HiddenIn(f: FlareState, frame: Frame, frameCount: int) {
    && frame.s.frameCount == frame.view.frameCount == frameCount
    && frame.view.Shows(f) && !frame.view.seen(frame.s.windowX, frame.s.windowY, frame.s.eyeZ)
    && frame.view.flareFade > 0.0 && frame.view.time >= f.fadeTime
  }

  /**
   A flare that has become hidden fades out over a run of frames, by the time since it became hidden;
   it leaves the pool in just those frames in which it has faded out.
   */
  lemma {:induction false} FadesOutWhileHidden(f: FlareState, frames: seq<Frame>)
    requires !f.visible && HiddenThroughout(f, frames)
    ensures
      var g := AfterFrames(f, frames);
      !g.visible && g.fadeTime == f.fadeTime && g.key == f.key && g.addedFrame == f.addedFrame + |frames|
    ensures frames != [] ==>
      var n := |frames| - 1;
      var faded := (frames[n].view.time - f.fadeTime) as real / 1000.0 * frames[n].view.flareFade;
      && AfterFrames(f, frames).drawIntensity == (if faded < 1.0 then 1.0 - faded else 0.0)
      && (Stays(Sighted(AfterFrames(f, frames[..n]), frames[n].s), frames[n].view) <==> faded < 1.0)
  {
    if frames != [] {
      var n := |frames| - 1;
      FadesOutWhileHidden(f, frames[..n]);
      assert HiddenIn(f, frames[n], f.addedFrame + 1 + n);
      FadesOff(AfterFrames(f, frames[..n]), frames[n]);
    }
  }

  lemma FadesOff(f: FlareState, frame: Frame)
    requires !f.visible && HiddenIn(f, frame, f.addedFrame + 1)
    ensures
      var g, faded := AfterFrame(f, frame), FadeSince(f.fadeTime, frame.view);
      && !g.visible && g.fadeTime == f.fadeTime && g.key == f.key && g.addedFrame == frame.s.frameCount
      && g.drawIntensity == (if faded < 1.0 then 1.0 - faded else 0.0)
      && (Stays(Sighted(f, frame.s), frame.view) <==> faded < 1.0)
  {
    var g, view := Sighted(f, frame.s), frame.view;
    assert !g.visible && g.fadeTime == f.fadeTime && !Stale(g, view) && view.Shows(g);
    assert !view.seen(g.windowX, g.windowY, g.eyeZ);
    HiddenIsFaded(f.fadeTime, view);
  }

  lemma HiddenIsFaded(since: int, view: View)
    requires view.time >= since && view.flareFade > 0.0
    ensures FadeSince(since, view) >= 0.0
  {
    var seconds := (view.time - since) as real / 1000.0;
    assert seconds >= 0.0;
    assert seconds * view.flareFade >= 0.0;
  }

  /** A flare that was not sighted in the frame before starts hidden, as it would be two seconds after it was last seen. */
  lemma SightedAfresh(f: FlareState, s: Sighting)
    requires f.addedFrame != s.frameCount - 1
    ensures
      var g := Sighted(f, s);
      && !g.visible && g.fadeTime == s.time - 2000 && g.key == f.key && g.addedFrame == s.frameCount
      && g.fogNum == s.fogNum && g.origin == s.origin && g.windowX == s.windowX && g.windowY == s.windowY && g.eyeZ == s.eyeZ
      && g.color.x == s.color.x * s.facing && g.color.y == s.color.y * s.facing && g.color.z == s.color.z * s.facing
  {
  }

  /** A flare that was sighted in the frame before goes on fading in or out as it did. */
  lemma SightedAgain(f: FlareState, s: Sighting)
    requires f.addedFrame == s.frameCount - 1
    ensures
      var g := Sighted(f, s);
      && g.visible == f.visible && g.fadeTime == f.fadeTime && g.key == f.key && g.addedFrame == s.frameCount
      && g.fogNum == s.fogNum && g.origin == s.origin && g.windowX == s.windowX && g.windowY == s.windowY && g.eyeZ == s.eyeZ
      && g.color.x == s.color.x * s.facing && g.color.y == s.color.y * s.facing && g.color.z == s.color.z * s.facing
  {
  }

  /** A flare whose visibility changes starts fading the other way, as it would be a millisecond later. */
  lemma TurnsAround(f: FlareState, view: View)
    requires view.seen(f.windowX, f.windowY, f.eyeZ) != f.visible
    ensures
      var g := Tested(f, view);
      var step := 1.0 / 1000.0 * view.flareFade;
      && g.visible == !f.visible && g.fadeTime == view.time - 1 && g.key == f.key && g.addedFrame == f.addedFrame
      && (0.0 <= step <= 1.0 ==> g.drawIntensity == if g.visible then step else 1.0 - step)
  {
    assert FadeSince(view.time - 1, view) == 1.0 / 1000.0 * view.flareFade;
  }

  /** Which flares stay: those sighted in this frame or the one before, except those of this view that cannot be seen at all. */
  lemma StaysIff(f: FlareState, view: View)
    ensures Stays(f, view)
       <==> f.addedFrame >= view.frameCount - 1
            && (f.key.frameSceneNum == view.frameSceneNum && f.key.inPortal == view.inPortal ==> Rendered(f, view).drawIntensity != 0.0)
    ensures f.addedFrame < view.frameCount - 1 ==> Rendered(f, view) == f
    ensures f.key.frameSceneNum != view.frameSceneNum || f.key.inPortal != view.inPortal ==>
              Rendered(f, view) == f || Rendered(f, view) == f.(drawIntensity := 0.0)
    ensures f.addedFrame >= view.frameCount - 1 && f.key.frameSceneNum == view.frameSceneNum && f.key.inPortal == view.inPortal ==>
              Rendered(f, view) == Tested(f, view) && 0.0 <= Rendered(f, view).drawIntensity <= 1.0
  {
  }

  lemma SeenIsBright(since: int, view: View)
    requires view.time > since && view.flareFade > 0.0
    ensures Brightness(since, view) > 0.0
  {
    var seconds := (view.time - since) as real / 1000.0;
    assert seconds > 0.0;
    assert seconds * view.flareFade > 0.0;
  }

  lemma TestedWhileSeen(f: FlareState, view: View)
    requires f.visible && view.seen(f.windowX, f.windowY, f.eyeZ)
    ensures Tested(f, view) == f.(drawIntensity := Brightness(f.fadeTime, view))
  {
  }

  // ---------------------------------------------------------------- lists

  function StateOf(states: map<Flare, FlareState>, f: Flare): FlareState {
    if f in states then states[f] else CLEARED
  }

  /** The flares that stay, in order. */
  function Staying(list: seq<Flare>, states: map<Flare, FlareState>, view: View): (r: seq<Flare>)
    ensures forall f <- r :: f in list
  {
    if list == [] then []
    else
      var rest := Staying(list[..|list| - 1], states, view);
      if Stays(StateOf(states, list[|list| - 1]), view) then rest + [list[|list| - 1]] else rest
  }

  /** The flares that leave, the last one first. */
  function Leaving(list: seq<Flare>, states: map<Flare, FlareState>, view: View): seq<Flare>
  {
    if list == [] then []
    else
      var rest := Leaving(list[..|list| - 1], states, view);
      if Stays(StateOf(states, list[|list| - 1]), view) then rest else [list[|list| - 1]] + rest
  }

  /** How one more flare extends the two lists. */
  lemma StayingNext(list: seq<Flare>, n: nat, states: map<Flare, FlareState>, view: View)
    requires n < |list|
    ensures Staying(list[..n + 1], states, view)
         == Staying(list[..n], states, view) + if Stays(StateOf(states, list[n]), view) then [list[n]] else []
    ensures Leaving(list[..n + 1], states, view)
         == (if Stays(StateOf(states, list[n]), view) then [] else [list[n]]) + Leaving(list[..n], states, view)
  {
    assert list[..n + 1][..n] == list[..n];
  }

  ghost predicate Distinct(list: seq<Flare>) {
    forall i, j :: 0 <= i < j < |list| ==> list[i] != list[j]
  }

  ghost predicate UniqueKeys(list: seq<Flare>, states: map<Flare, FlareState>)
  {
    forall i, j :: 0 <= i < j < |list| ==> StateOf(states, list[i]).key != StateOf(states, list[j]).key
  }

  /** Each flare of the list goes one way, and both lists stay free of repetition. */
  lemma {:induction false} StayOrLeave(list: seq<Flare>, states: map<Flare, FlareState>, view: View)
    ensures forall f :: f in Staying(list, states, view) <==> f in list && Stays(StateOf(states, f), view)
    ensures forall f :: f in Leaving(list, states, view) <==> f in list && !Stays(StateOf(states, f), view)
    ensures |Staying(list, states, view)| + |Leaving(list, states, view)| == |list|
  {
    if list != [] {
      var n := |list| - 1;
      StayOrLeave(list[..n], states, view);
      assert list == list[..n] + [list[n]];
    }
  }

  lemma {:induction false} StayingKeepsKeys(list: seq<Flare>, states: map<Flare, FlareState>, view: View)
    requires Distinct(list) && UniqueKeys(list, states)
    ensures Distinct(Staying(list, states, view)) && UniqueKeys(Staying(list, states, view), states)
  {
    if list != [] {
      var n := |list| - 1;
      var rest := Staying(list[..n], states, view);
      StayingKeepsKeys(list[..n], states, view);
      forall i | 0 <= i < |rest|
        ensures rest[i] != list[n] && StateOf(states, rest[i]).key != StateOf(states, list[n]).key
      {
        assert rest[i] in list[..n];
        var j :| 0 <= j < n && list[j] == rest[i];
      }
    }
  }

  /** The order is kept: of two flares that stay, the one that was first is still first. */
  lemma {:induction false} StayingKeepsOrder(list: seq<Flare>, states: map<Flare, FlareState>, view: View, i: nat, j: nat)
    returns (a: nat, b: nat)
    requires i < j < |list| && Stays(StateOf(states, list[i]), view) && Stays(StateOf(states, list[j]), view)
    ensures a < b < |Staying(list, states, view)|
    ensures Staying(list, states, view)[a] == list[i] && Staying(list, states, view)[b] == list[j]
  {
    var n := |list| - 1;
    var rest := Staying(list[..n], states, view);
    if j < n {
      a, b := StayingKeepsOrder(list[..n], states, view, i, j);
    } else {
      StayOrLeave(list[..n], states, view);
      assert list[i] == list[..n][i] && list[i] in rest;
      a :| 0 <= a < |rest| && rest[a] == list[i];
      b := |rest|;
      assert Staying(list, states, view) == rest + [list[n]];
    }
  }

  /** The flare before place k, if there is one. */
  function Before(list: seq<Flare>, k: nat): Flare?
    requires k <= |list|
  {
    if k == 0 then null else list[k - 1]
  }

  ghost predicate AnyShown(list: seq<Flare>, states: map<Flare, FlareState>, view: View)
  {
    exists i :: 0 <= i < |list| && view.Shows(StateOf(states, list[i]))
  }

  // ---------------------------------------------------------------- the rendering loop half way

  /** The lists when the first n active flares have been rendered, and k of them kept. */
  ghost predicate ListsAt(all: seq<Flare>, spare: seq<Flare>, was: map<Flare, FlareState>, view: View, n: nat, k: nat,
                          active: seq<Flare>, inactive: seq<Flare>)
  {
    && n <= |all| && k <= |active|
    && active[..k] == Staying(all[..n], was, view) && active[k..] == all[n..]
    && inactive == Leaving(all[..n], was, view) + spare
  }

  ghost predicate StatesAt(structs: seq<Flare>, all: seq<Flare>, was: map<Flare, FlareState>, view: View, n: nat, now: map<Flare, FlareState>)
    requires n <= |all|
  {
    forall f <- structs :: StateOf(now, f) == if f in all[..n] then Rendered(StateOf(was, f), view) else StateOf(was, f)
  }

  ghost predicate Rendering(structs: seq<Flare>, all: seq<Flare>, spare: seq<Flare>, was: map<Flare, FlareState>, view: View, n: nat, k: nat,
                            active: seq<Flare>, inactive: seq<Flare>, now: map<Flare, FlareState>)
  {
    && Distinct(all)
    && ListsAt(all, spare, was, view, n, k, active, inactive) && StatesAt(structs, all, was, view, n, now)
  }

  lemma RenderingStart(structs: seq<Flare>, all: seq<Flare>, spare: seq<Flare>, was: map<Flare, FlareState>, view: View)
    requires Distinct(all)
    ensures Rendering(structs, all, spare, was, view, 0, 0, all, spare, was) && !AnyShown(Staying(all[..0], was, view), was, view)
  {
  }

  /** The flare whose turn it is has not been touched yet. */
  lemma RenderingAt(structs: seq<Flare>, all: seq<Flare>, spare: seq<Flare>, was: map<Flare, FlareState>, view: View, n: nat, k: nat,
                    active: seq<Flare>, inactive: seq<Flare>, now: map<Flare, FlareState>)
    requires Rendering(structs, all, spare, was, view, n, k, active, inactive, now) && k < |active| && active[k] in structs
    ensures n < |all| && active[k] == all[n] && StateOf(now, all[n]) == StateOf(was, all[n])
  {
    assert active[k] == active[k..][0] && all[n] == all[n..][0];
  }

  lemma ListsNext(all: seq<Flare>, spare: seq<Flare>, was: map<Flare, FlareState>, view: View, n: nat, k: nat,
                  active: seq<Flare>, inactive: seq<Flare>)
    requires ListsAt(all, spare, was, view, n, k, active, inactive) && k < |active|
    ensures n < |all| && active[k] == all[n]
    ensures if Stays(StateOf(was, all[n]), view) then ListsAt(all, spare, was, view, n + 1, k + 1, active, inactive)
            else ListsAt(all, spare, was, view, n + 1, k, Without(active, k), [all[n]] + inactive)
  {
    assert active[k] == active[k..][0] && all[n] == all[n..][0];
    StayingNext(all, n, was, view);
    if Stays(StateOf(was, all[n]), view) {
      assert active[..k + 1] == active[..k] + [active[k]];
      assert active[k + 1..] == active[k..][1..] == all[n..][1..] == all[n + 1..];
    } else {
      assert Without(active, k)[..k] == active[..k];
      assert Without(active, k)[k..] == active[k..][1..] == all[n..][1..] == all[n + 1..];
    }
  }

  lemma StatesNext(structs: seq<Flare>, all: seq<Flare>, was: map<Flare, FlareState>, view: View, n: nat,
                   now: map<Flare, FlareState>, now': map<Flare, FlareState>)
    requires n < |all|
    requires StatesAt(structs, all, was, view, n, now)
    requires forall f <- structs :: StateOf(now', f) == if f == all[n] then Rendered(StateOf(was, f), view) else StateOf(now, f)
    ensures StatesAt(structs, all, was, view, n + 1, now')
  {
    assert all[..n + 1] == all[..n] + [all[n]];
  }

  lemma RenderingNext(structs: seq<Flare>, all: seq<Flare>, spare: seq<Flare>, was: map<Flare, FlareState>, view: View,
                      n: nat, k: nat, active: seq<Flare>, inactive: seq<Flare>, now: map<Flare, FlareState>,
                      k': nat, active': seq<Flare>, inactive': seq<Flare>, now': map<Flare, FlareState>)
    requires Rendering(structs, all, spare, was, view, n, k, active, inactive, now) && k < |active| && active[k] in structs
    requires if Stays(StateOf(now, active[k]), view) then k' == k + 1 && active' == active && inactive' == inactive
             else k' == k && active' == Without(active, k) && inactive' == [active[k]] + inactive
    requires forall f <- structs :: StateOf(now', f) == if f == active[k] then Rendered(StateOf(now, f), view) else StateOf(now, f)
    ensures n < |all| && active[k] == all[n] && StateOf(was, all[n]) == StateOf(now, active[k])
    ensures Rendering(structs, all, spare, was, view, n + 1, k', active', inactive', now')
  {
    RenderingAt(structs, all, spare, was, view, n, k, active, inactive, now);
    ListsNext(all, spare, was, view, n, k, active, inactive);
    StatesNext(structs, all, was, view, n, now, now');
  }

  lemma RenderingDone(structs: seq<Flare>, all: seq<Flare>, spare: seq<Flare>, was: map<Flare, FlareState>, view: View, n: nat, k: nat,
                      active: seq<Flare>, inactive: seq<Flare>, now: map<Flare, FlareState>)
    requires UniqueKeys(all, was) && forall f <- all :: f in structs
    requires Rendering(structs, all, spare, was, view, n, k, active, inactive, now) && k >= |active|
    ensures all[..n] == all && (forall f <- active :: f in all) && UniqueKeys(active, now)
    ensures active == Staying(all, was, view) && inactive == Leaving(all, was, view) + spare
    ensures forall f <- structs :: StateOf(now, f) == if f in all then Rendered(StateOf(was, f), view) else StateOf(was, f)
  {
    assert all[..n] == all;
    assert active[..k] == active;
    StayingKeepsKeys(all, was, view);
    assert forall f <- active :: StateOf(was, f).key == StateOf(now, f).key;
  }

  lemma DrawNext(all: seq<Flare>, n: nat, was: map<Flare, FlareState>, view: View)
    requires n < |all|
    ensures AnyShown(Staying(all[..n + 1], was, view), was, view)
       <==> AnyShown(Staying(all[..n], was, view), was, view) || (Stays(StateOf(was, all[n]), view) && view.Shows(StateOf(was, all[n])))
  {
    StayingNext(all, n, was, view);
    var before, after := Staying(all[..n], was, view), Staying(all[..n + 1], was, view);
    assert forall i :: 0 <= i < |before| ==> before[i] == after[i];
    if Stays(StateOf(was, all[n]), view) {
      assert after[|before|] == all[n];
    }
  }

  function At(list: seq<Flare>, i: nat): Flare? {
    if i < |list| then list[i] else null
  }

  /** The place of the first flare with the key; the list's length when there is none. */
  function PlaceOf(list: seq<Flare>, states: map<Flare, FlareState>, key: Key): (k: nat)
    ensures k <= |list| && (k < |list| ==> StateOf(states, list[k]).key == key)
    ensures forall i :: 0 <= i < k ==> StateOf(states, list[i]).key != key
  {
    if list == [] || StateOf(states, list[0]).key == key then 0 else 1 + PlaceOf(list[1..], states, key)
  }

  /** The flare that a sighting goes to: the active one with its key, or else the first inactive one. */
  function Target(active: seq<Flare>, inactive: seq<Flare>, states: map<Flare, FlareState>, s: Sighting): Flare? {
    var k := PlaceOf(active, states, s.key);
    if s.facing < 0.0 || !s.onScreen then null
    else if k < |active| then active[k]
    else At(inactive, 0)
  }

  lemma PlaceIsFirst(list: seq<Flare>, states: map<Flare, FlareState>, key: Key, k: nat)
    requires k <= |list| && (k < |list| ==> StateOf(states, list[k]).key == key)
    requires forall i :: 0 <= i < k ==> StateOf(states, list[i]).key != key
    ensures PlaceOf(list, states, key) == k
  {
  }

  ghost predicate KeyUnused(list: seq<Flare>, states: map<Flare, FlareState>, key: Key) {
    forall i :: 0 <= i < |list| ==> StateOf(states, list[i]).key != key
  }

  /** A new key in front, different from all the others, keeps the keys unique. */
  lemma KeysStayUnique(list: seq<Flare>, was: map<Flare, FlareState>, now: map<Flare, FlareState>, f: Flare)
    requires forall g <- list :: StateOf(was, g).key == StateOf(now, g).key
    requires UniqueKeys(list, was) && KeyUnused(list, was, StateOf(now, f).key)
    ensures UniqueKeys([f] + list, now)
  {
    var all := [f] + list;
    assert forall i :: 0 < i < |all| ==> all[i] == list[i - 1];
  }

  function Without(list: seq<Flare>, k: nat): (r: seq<Flare>)
    requires k < |list|
    ensures |r| == |list| - 1
    ensures forall i :: 0 <= i < |r| ==> r[i] == list[if i < k then i else i + 1]
  {
    list[..k] + list[k + 1..]
  }

  lemma WithoutKeeps(list: seq<Flare>, k: nat)
    requires k < |list| && Distinct(list)
    ensures Distinct(Without(list, k))
    ensures forall f :: f in Without(list, k) <==> f in list && f != list[k]
  {
    var r := Without(list, k);
    forall f | f in list && f != list[k]
      ensures f in r
    {
      var i :| 0 <= i < |list| && list[i] == f;
      assert r[if i < k then i else i - 1] == f;
    }
  }

  /** No struct is in a list twice or in both, and none is missing but those on their way. */
  ghost predicate SharedOut(structs: seq<Flare>, active: seq<Flare>, inactive: seq<Flare>, moving: set<Flare>) {
    && Distinct(active) && Distinct(inactive) && (forall f <- active :: f !in inactive)
    && (forall f <- active :: f in structs && f !in moving) && (forall f <- inactive :: f in structs && f !in moving)
    && (forall f <- structs :: f in active || f in inactive || f in moving)
  }

  lemma SharedWithout(structs: seq<Flare>, active: seq<Flare>, inactive: seq<Flare>, k: nat)
    requires SharedOut(structs, active, inactive, {}) && k < |active|
    ensures active[k] in structs && active[k] !in inactive && SharedOut(structs, Without(active, k), inactive, {active[k]})
    ensures k > 0 ==> active[k - 1] in structs && active[k - 1] !in inactive
  {
    assert active[k] in active && (k > 0 ==> active[k - 1] in active);
    WithoutKeeps(active, k);
  }

  lemma ReversedIsShared(structs: seq<Flare>, inactive: seq<Flare>)
    requires Distinct(structs) && |inactive| == |structs|
    requires forall k :: 0 <= k < |inactive| ==> inactive[k] == structs[|structs| - 1 - k]
    ensures SharedOut(structs, [], inactive, {})
  {
    forall f | f in structs
      ensures f in inactive
    {
      var i :| 0 <= i < |structs| && f == structs[i];
      assert inactive[|structs| - 1 - i] == f;
    }
  }

  class FlarePool {
    const structs: seq<Flare>
    var activeFlares: Flare?
    var inactiveFlares: Flare?
    ghost var active: seq<Flare>
    ghost var inactive: seq<Flare>

    /** The links of the list that starts at head spell the list, and end it. */
    ghost predicate Chained(head: Flare?, list: seq<Flare>)
      reads list`next
    {
      && head == At(list, 0)
      && forall i :: 0 <= i < |list| ==> list[i].next == At(list, i + 1)
    }

    /** The two lists are acyclic and disjoint, and share out all the structs but those on their way. */
    ghost predicate LinkedBut(moving: set<Flare>)
      reads this, active`next, inactive`next
    {
      && SharedOut(structs, active, inactive, moving)
      && Chained(activeFlares, active)
      && Chained(inactiveFlares, inactive)
    }

    ghost predicate Linked()
      reads this, active`next, inactive`next
    {
      LinkedBut({})
    }

    ghost function States(): (m: map<Flare, FlareState>)
      reads structs`state
      ensures forall f <- structs :: StateOf(m, f) == f.state
    {
      map f | f in structs :: f.state
    }

    ghost predicate Valid()
      reads this, structs, active, inactive
    {
      && |structs| == MAX_FLARES && Distinct(structs)
      && Linked()
      && UniqueKeys(active, States())
    }

    /** Lets the list bypass the flare at place k, at its head or at the flare before. */
    method Bypass(prev: Flare?, f: Flare, ghost k: nat)
      requires Distinct(active) && Chained(activeFlares, active)
      requires k < |active| && f == active[k] && prev == Before(active, k)
      requires Chained(inactiveFlares, inactive) && (prev != null ==> prev !in inactive)
      modifies this`activeFlares, (if prev == null then {} else {prev})`next
      ensures Chained(activeFlares, Without(active, k)) && Chained(inactiveFlares, inactive)
    {
      if prev == null {
        activeFlares := f.next;
      } else {
        prev.next := f.next;
      }
    }

    /** Takes the flare at place k out of the active list. */
    method Unlink(prev: Flare?, f: Flare, ghost k: nat)
      requires Linked() && k < |active| && f == active[k] && prev == Before(active, k)
      modifies this`activeFlares, this`active, structs`next
      ensures LinkedBut({f}) && f in structs
      ensures active == Without(old(active), k)
    {
      ghost var rest := Without(active, k);
      SharedWithout(structs, active, inactive, k);
      Bypass(prev, f, k);
      active := rest;
    }

    /** Links a flare in front of the inactive list. */
    method Push(f: Flare)
      requires Chained(inactiveFlares, inactive) && f !in inactive
      modifies this`inactiveFlares, this`inactive, f`next
      ensures Chained(inactiveFlares, inactive) && inactive == [f] + old(inactive)
    {
      f.next := inactiveFlares;
      inactiveFlares := f;
      inactive := [f] + inactive;
    }

    /** Puts it in front of the inactive list, and so releases it. */
    method Release(f: Flare)
      requires LinkedBut({f}) && f in structs
      modifies this`inactiveFlares, this`inactive, structs`next
      ensures Linked()
      ensures inactive == [f] + old(inactive)
    {
      Push(f);
      assert Chained(activeFlares, active);
    }

    /** Takes the first inactive flare and puts it in front of the active list. */
    method Acquire() returns (f: Flare)
      requires Linked() && inactiveFlares != null
      modifies this`activeFlares, this`inactiveFlares, this`active, this`inactive, structs`next
      ensures Linked() && old(inactive) != [] && f == old(inactive[0]) && f in structs
      ensures active == [f] + old(active) && inactive == Without(old(inactive), 0)
    {
      WithoutKeeps(inactive, 0);
      f := inactiveFlares;
      assert f in inactive;
      inactiveFlares := inactiveFlares.next;
      f.next := activeFlares;
      activeFlares := f;
      active := [f] + active;
      inactive := Without(inactive, 0);
      assert Chained(activeFlares, active);
      assert Chained(inactiveFlares, inactive);
    }

    /** The pool over its structs, all of them inactive. */
    constructor (flares: seq<Flare>)
      requires |flares| == MAX_FLARES && Distinct(flares)
      modifies flares
      ensures structs == flares && Valid() && active == [] && |inactive| == MAX_FLARES
    {
      structs := flares;
      active, inactive := [], [];
      activeFlares, inactiveFlares := null, null;
      new;
      ClearFlares();
    }

    /** Zeroes the structs. */
    method ZeroStructs()
      requires |structs| == MAX_FLARES
      modifies structs
      ensures forall f <- structs :: f.state == CLEARED
    {
      for i := 0 to MAX_FLARES
        invariant forall k :: 0 <= k < i ==> structs[k].state == CLEARED
      {
        structs[i].next, structs[i].state := null, CLEARED;
      }
    }

    /** R_ClearFlares: from whatever state, every flare is cleared and inactive. */
    method ClearFlares()
      requires |structs| == MAX_FLARES && Distinct(structs)
      modifies this, structs
      ensures Valid() && active == [] && |inactive| == MAX_FLARES
      ensures forall f <- structs :: f.state == CLEARED
    {
      ZeroStructs();
      activeFlares, inactiveFlares := null, null;
      active, inactive := [], [];
      for i := 0 to MAX_FLARES
        invariant active == [] && activeFlares == null && |inactive| == i && Chained(inactiveFlares, inactive)
        invariant forall k :: 0 <= k < i ==> inactive[k] == structs[i - 1 - k]
        invariant forall f <- structs :: f.state == CLEARED
      {
        Push(structs[i]);
      }
      ReversedIsShared(structs, inactive);
    }

    /** Looks for an active flare with the key. */
    method Find(key: Key) returns (f: Flare?)
      requires Linked()
      ensures f == At(active, PlaceOf(active, States(), key))
    {
      ghost var k := 0;
      f := activeFlares;
      while f != null
        invariant k <= |active| && f == At(active, k)
        invariant forall i :: 0 <= i < k ==> StateOf(States(), active[i]).key != key
        decreases |active| - k
      {
        if f.state.key == key {
          break;
        }
        f := f.next;
        k := k + 1;
      }
      PlaceIsFirst(active, States(), key, k);
    }

    /** Gives the first inactive struct, now the first active one, a key no active flare has. */
    method Claim(key: Key) returns (f: Flare)
      requires Valid() && inactiveFlares != null && KeyUnused(active, States(), key)
      modifies this`activeFlares, this`inactiveFlares, this`active, this`inactive, structs
      ensures Valid() && old(inactive) != [] && f == old(inactive)[0] && f in structs
      ensures active == [f] + old(active) && inactive == Without(old(inactive), 0)
      ensures f.state == old(f.state).(key := key, addedFrame := -1)
      ensures forall g <- structs :: g != f ==> g.state == old(g.state)
    {
      ghost var was, list := States(), active;
      f := Acquire();
      assert was == States();
      Rename(f, key, was, list);
    }

    /** Gives the flare just acquired its key. */
    method Rename(f: Flare, key: Key, ghost was: map<Flare, FlareState>, ghost list: seq<Flare>)
      requires |structs| == MAX_FLARES && Distinct(structs) && Linked() && f in structs && active == [f] + list
      requires was == States() && UniqueKeys(list, was) && KeyUnused(list, was, key)
      modifies f`state
      ensures Valid() && f.state == old(f.state).(key := key, addedFrame := -1)
      ensures forall g <- structs :: g != f ==> g.state == old(g.state)
    {
      f.state := f.state.(key := key, addedFrame := -1);
      forall g | g in list
        ensures g in structs && g != f && StateOf(was, g).key == StateOf(States(), g).key
      {
        assert g in active;
        var i :| 0 <= i < |list| && list[i] == g;
        assert active[i + 1] == g && active[0] == f;
      }
      KeysStayUnique(list, was, States(), f);
    }

    /** Writes a sighting into an active flare. */
    method Record(f: Flare, s: Sighting)
      requires Valid() && f in structs
      modifies f`state
      ensures Valid() && f.state == Sighted(old(f.state), s)
    {
      ghost var was := States();
      f.Sight(s);
      assert forall g <- structs :: StateOf(States(), g).key == StateOf(was, g).key;
    }

    /** Writes a sighting with a new key into the first inactive struct. */
    method AddNew(s: Sighting) returns (f: Flare)
      requires Valid() && inactiveFlares != null && KeyUnused(active, States(), s.key)
      modifies this`activeFlares, this`inactiveFlares, this`active, this`inactive, structs
      ensures Valid() && f == At(old(inactive), 0) && f !in old(active) && f in structs
      ensures active == [f] + old(active) && [f] + inactive == old(inactive)
      ensures f.state == Sighted(old(f.state).(key := s.key, addedFrame := -1), s)
      ensures forall g <- structs :: g != f ==> g.state == old(g.state)
    {
      f := Claim(s.key);
      Record(f, s);
    }

    /**
     RB_AddFlare. A flare that faces away or is off the screen is not added, nor is a new one when no
     struct is left; an active flare with the key is the only one touched; otherwise the first
     inactive struct becomes the first active one. `f` is the flare touched, if any.
     */
    method AddFlare(s: Sighting) returns (f: Flare?)
      requires Valid()
      modifies this`activeFlares, this`inactiveFlares, this`active, this`inactive, structs
      ensures Valid()
      ensures f == Target(old(active), old(inactive), old(States()), s)
      ensures f == null || f in old(active) ==> active == old(active) && inactive == old(inactive)
      ensures f != null && f !in old(active) ==> active == [f] + old(active) && [f] + inactive == old(inactive)
      ensures f != null ==> f in structs && f.state.key == s.key
      ensures f != null ==> f.state == Sighted(if f in old(active) then old(StateOf(States(), f))
                                               else old(StateOf(States(), f)).(key := s.key, addedFrame := -1), s)
      ensures forall g <- structs :: g != f ==> g.state == old(g.state)
    {
      if s.facing < 0.0 || !s.onScreen {
        return null;
      }
      f := Find(s.key);
      if f == null {
        if inactiveFlares == null {
          return null;
        }
        f := AddNew(s);
        return f;
      }
      assert f in active;
      Record(f, s);
    }

    /** Moves a flare from the active to the inactive list. */
    method Discard(prev: Flare?, f: Flare, ghost k: nat)
      requires Linked() && k < |active| && f == active[k] && prev == Before(active, k)
      modifies this`activeFlares, this`inactiveFlares, this`active, this`inactive, structs`next
      ensures Linked() && active == Without(old(active), k) && inactive == [f] + old(inactive)
    {
      Unlink(prev, f, k);
      Release(f);
    }

    /** One turn of the loop in RB_RenderFlares, and the step to the next; `visible`: the flare is to be drawn. */
    method RenderOne(prev: Flare?, f: Flare, ghost k: nat, view: View) returns (prev': Flare?, f': Flare?, visible: bool)
      requires Linked() && k < |active| && f == active[k] && prev == Before(active, k)
      modifies this`activeFlares, this`inactiveFlares, this`active, this`inactive, structs`next, f`state
      ensures Linked() && f.state == Rendered(old(f.state), view)
      ensures visible == (Stays(old(f.state), view) && view.Shows(old(f.state)))
      ensures Stays(old(f.state), view) ==>
                active == old(active) && inactive == old(inactive) && prev' == Before(active, k + 1) && f' == At(active, k + 1)
      ensures !Stays(old(f.state), view) ==>
                && active == Without(old(active), k) && inactive == [f] + old(inactive)
                && prev' == Before(active, k) && f' == At(active, k)
    {
      var stays;
      stays, visible := f.Judge(view);
      if stays {
        prev', f' := f, f.next;
      } else {
        Discard(prev, f, k);
        prev', f' := prev, if prev == null then activeFlares else prev.next;
      }
    }

    /**
     The loop of RB_RenderFlares: it ends, keeps the flares that stay in their order, and moves the
     others to the inactive list; each active flare is tested once.
     */
    method RenderFlares(view: View) returns (draw: bool)
      requires Valid()
      modifies this`activeFlares, this`inactiveFlares, this`active, this`inactive, structs
      ensures Valid()
      ensures active == Staying(old(active), old(States()), view)
      ensures inactive == Leaving(old(active), old(States()), view) + old(inactive)
      ensures forall f <- structs :: f.state == if f in old(active) then Rendered(old(f.state), view) else old(f.state)
      ensures draw <==> AnyShown(active, old(States()), view)
    {
      ghost var was, all, spare := States(), active, inactive;
      draw := false;
      var prev: Flare? := null;
      var f := activeFlares;
      ghost var n, k := 0, 0;
      RenderingStart(structs, all, spare, was, view);
      while f != null
        invariant RenderLoop(all, spare, was, view, n, k) && f == At(active, k) && prev == Before(active, k)
        invariant draw <==> AnyShown(Staying(all[..n], was, view), was, view)
        decreases |all| - n
      {
        var visible;
        prev, f, visible, k := RenderStep(prev, f, view, all, spare, was, n, k);
        DrawNext(all, n, was, view);
        draw := draw || visible;
        n := n + 1;
      }
      RenderingDone(structs, all, spare, was, view, n, k, active, inactive, States());
    }

    ghost predicate RenderLoop(all: seq<Flare>, spare: seq<Flare>, was: map<Flare, FlareState>, view: View, n: nat, k: nat)
      reads this, structs, active`next, inactive`next
    {
      && Linked() && Rendering(structs, all, spare, was, view, n, k, active, inactive, States())
    }

    /** One turn of the loop, with the step to the next flare. */
    method RenderStep(prev: Flare?, f: Flare, view: View, ghost all: seq<Flare>, ghost spare: seq<Flare>,
                      ghost was: map<Flare, FlareState>, ghost n: nat, ghost k: nat)
      returns (prev': Flare?, f': Flare?, visible: bool, ghost k': nat)
      requires RenderLoop(all, spare, was, view, n, k) && k < |active| && f == active[k] && prev == Before(active, k)
      modifies this`activeFlares, this`inactiveFlares, this`active, this`inactive, structs
      ensures n < |all| && visible == (Stays(StateOf(was, all[n]), view) && view.Shows(StateOf(was, all[n])))
      ensures RenderLoop(all, spare, was, view, n + 1, k')
      ensures k' <= |active| && f' == At(active, k') && prev' == Before(active, k')
    {
      ghost var active0, inactive0, now := active, inactive, States();
      assert f in active;
      k' := if Stays(f.state, view) then k + 1 else k;
      prev', f', visible := RenderOne(prev, f, k, view);
      RenderingNext(structs, all, spare, was, view, n, k, active0, inactive0, now, k', active, inactive, States());
    }
  }
}
