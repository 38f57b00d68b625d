/** The interactive frame loop: the events of one frame are handled in
    order, then one simulation step runs if the game is playing and the
    divider is due, then the divider counts down. Rendering and the window
    title are not modelled; the events arrive already decoded. */
module MainLoop {
  import opened Geometry
  import opened Rules
  import opened Boards
  import opened Tempo

  /** Period the game starts with. */
  const InitialPeriod: int := 15
  /** Amount the arrow keys change the period by. */
  const TempoStep: int := 5

  /** Released keys that the loop reacts to without Ctrl. */
  datatype Key = KeyS | KeyLeft | KeyRight | KeySpace | KeyR | OtherKey

  /** Decoded input events. SaveRequest is Ctrl+S with a file chosen in the
      dialog; LoadRequest is Ctrl+L with a file chosen, carrying the flag
      list read from it. A dialog that is cancelled produces no event. */
  datatype Event =
    | Quit
    | MouseUp(px: int, py: int)
    | SaveRequest
    | LoadRequest(data: seq<bool>)
    | KeyUp(key: Key)

  /** Everything the loop can observe: the board's alive flags and step
      counter, the play and run flags, the divider's period and countdown,
      and the flag lists saved so far, oldest first. */
  datatype World = World(alive: seq<bool>, steps: int, play: bool, run: bool,
                         d: int, c: int, saved: seq<seq<bool>>)

  /** A frame either completes or stops the program: loading a list longer
      than the board raises an error nothing catches. */
  datatype Outcome = Running(world: World) | Crashed

  predicate WellFormed(w: World)
  {
    |w.alive| == BoardSize && w.steps >= 0 && w.d >= 0
  }

  /** The effect of one event. */
  function Handle(w: World, e: Event): (o: Outcome)
    requires WellFormed(w)
    ensures o.Running? ==> WellFormed(o.world)
    ensures o.Crashed? <==> e.LoadRequest? && |e.data| > BoardSize
  {
    match e
    case Quit => Running(w.(run := false))
    case MouseUp(px, py) =>
      if !w.play && InWindow(px, py) then
        var i := CellAt(px, py);
        Running(w.(alive := w.alive[i := !w.alive[i]]))
      else Running(w)
    case SaveRequest => Running(w.(saved := w.saved + [w.alive]))
    case LoadRequest(data) =>
      if |data| <= BoardSize then Running(w.(alive := Loaded(data), steps := 0)) else Crashed
    case KeyUp(key) =>
      match key
      case KeyS =>
        if !w.play then Running(w.(alive := NextGen(w.alive), steps := w.steps + 1)) else Running(w)
      case KeyLeft => Running(w.(d := ClampPeriod(w.d + TempoStep)))
      case KeyRight => Running(w.(d := ClampPeriod(w.d - TempoStep)))
      case KeySpace => Running(w.(play := !w.play))
      case KeyR => Running(w.(play := false, alive := Dead(), steps := 0))
      case OtherKey => Running(w)
  }

  /** The effect of a frame's events, handled first to last; handling stops
      at a crash. */
  function Events(w: World, evs: seq<Event>): (o: Outcome)
    requires WellFormed(w)
    ensures o.Running? ==> WellFormed(o.world)
    decreases |evs|
  {
    if evs == [] then Running(w)
    else
      match Events(w, evs[..|evs| - 1])
      case Crashed => Crashed
      case Running(p) => Handle(p, evs[|evs| - 1])
  }

  /** The divider lets a step through in this frame. */
  predicate Due(w: World)
    ensures Due(w) ==> w.play
  {
    w.play && w.c < 0
  }

  /** The end of a frame: a step if due (the countdown is reloaded first),
      then the countdown goes down by one. */
  function Tick(w: World): (r: World)
    requires WellFormed(w)
    ensures WellFormed(r)
    ensures r.play == w.play && r.run == w.run && r.d == w.d && r.saved == w.saved
    ensures r.steps == w.steps + (if Due(w) then 1 else 0)
    ensures r.alive == (if Due(w) then NextGen(w.alive) else w.alive)
    ensures r.c == (if Due(w) then w.d else w.c) - 1
  {
    var stepped := if Due(w) then w.(c := w.d, alive := NextGen(w.alive), steps := w.steps + 1) else w;
    stepped.(c := stepped.c - 1)
  }

  /** One whole frame. */
  function Frame(w: World, evs: seq<Event>): (o: Outcome)
    requires WellFormed(w)
    ensures o.Running? ==> WellFormed(o.world)
  {
    match Events(w, evs)
    case Crashed => Crashed
    case Running(p) => Running(Tick(p))
  }

  /** Once a frame's events have crashed, the remaining ones change nothing. */
  lemma {:induction false} CrashIsFinal(w: World, evs: seq<Event>, n: nat)
    requires WellFormed(w) && n <= |evs|
    requires Events(w, evs[..n]) == Crashed
    ensures Events(w, evs) == Crashed
    decreases |evs| - n
  {
    if n < |evs| {
      assert evs[..n + 1][..n] == evs[..n];
      CrashIsFinal(w, evs, n + 1);
    } else {
      assert evs[..n] == evs;
    }
  }

  /** Frames after frame-list position 0 while the loop keeps running: the
      loop stops after the frame whose events set run to false, or at a
      crash. */
  function Session(w: World, frames: seq<seq<Event>>): (o: Outcome)
    requires WellFormed(w)
    ensures o.Running? ==> WellFormed(o.world)
    decreases |frames|
  {
    if frames == [] || !w.run then Running(w)
    else
      match Frame(w, frames[0])
      case Crashed => Crashed
      case Running(next) => Session(next, frames[1..])
  }

  /** m frames in which nothing happens but the clock. */
  function QuietFrames(w: World, m: nat): (r: World)
    requires WellFormed(w)
    ensures WellFormed(r)
    decreases m
  {
    if m == 0 then w else QuietFrames(Tick(w), m - 1)
  }

  /** A frame without events is just the end-of-frame tick. */
  lemma QuietFrame(w: World)
    requires WellFormed(w)
    ensures Frame(w, []) == Running(Tick(w))
  {
  }

  /** Number of steps in m quiet frames while playing, with period d and
      countdown c at the start: the first one in frame max(c, -1) + 2 (in frame 1 if
      the countdown is already below zero), then one every d + 1 frames. */
  function StepsWithin(d: int, c: int, m: nat): nat
    requires d >= 0
  {
    var first := (if c < -1 then -1 else c) + 2;
    if m < first then 0 else 1 + (m - first) / (d + 1)
  }

  lemma MulBounds(k: int, n: int)
    requires n >= 0
    ensures k >= 1 ==> k * n >= n
    ensures k <= -1 ==> k * n <= -n
  {
  }

  /** Quotient of a decomposition with the remainder in range. */
  lemma DivUnique(a: int, b: int, q: int, r: int)
    requires b > 0 && 0 <= r < b && a == q * b + r
    ensures a / b == q
  {
    var q', r' := a / b, a % b;
    assert (q - q') * b == r' - r;
    MulBounds(q - q', b);
  }

  /** Dividing by b: below b the quotient is 0, from b on it is one more
      than the quotient of a - b. */
  lemma DivStep(a: int, b: int)
    requires a >= 0 && b > 0
    ensures a / b == if a < b then 0 else 1 + (a - b) / b
  {
    if a < b {
      DivUnique(a, b, 0, a);
    } else {
      var q, r := (a - b) / b, (a - b) % b;
      DivUnique(a, b, q + 1, r);
    }
  }

  /** One quiet frame while playing: a countdown below zero gives a step now
      and reloads the countdown to d - 1; otherwise it just goes down. */
  lemma StepsWithinTick(d: int, c: int, m: nat)
    requires d >= 0 && m > 0
    ensures StepsWithin(d, c, m) ==
              if c < 0 then 1 + StepsWithin(d, d - 1, m - 1) else StepsWithin(d, c - 1, m - 1)
  {
    if c < 0 {
      DivStep(m - 1, d + 1);
    }
  }

  /** While playing and without events, the frame loop runs exactly
      StepsWithin(d, c, m) simulation steps in m frames. */
  lemma {:induction false} QuietFramesStep(w: World, m: nat)
    requires WellFormed(w) && w.play
    ensures var r := QuietFrames(w, m);
            && r.steps == w.steps + StepsWithin(w.d, w.c, m)
            && r.play && r.d == w.d
    decreases m
  {
    if m > 0 {
      QuietFramesStep(Tick(w), m - 1);
      StepsWithinTick(w.d, w.c, m);
    }
  }

  /** Once the countdown is below the period, every run of d + 1 quiet
      frames while playing holds exactly one step. */
  lemma OneStepPerPeriod(w: World, m: nat)
    requires WellFormed(w) && w.play && w.c < w.d
    ensures QuietFrames(w, m + w.d + 1).steps == QuietFrames(w, m).steps + 1
  {
    QuietFramesStep(w, m);
    QuietFramesStep(w, m + w.d + 1);
    var first := (if w.c < -1 then -1 else w.c) + 2;
    if m + w.d + 1 >= first {
      DivStep(m + w.d + 1 - first, w.d + 1);
    }
  }

  /** Right after a frame that stepped, while playing and without events,
      the next step comes exactly d + 1 frames later: none in the d frames
      before it. */
  lemma NextStepAfterPeriod(w: World, m: nat)
    requires WellFormed(w) && Due(w)
    ensures var t := Tick(w);
            && (m <= w.d ==> QuietFrames(t, m).steps == t.steps)
            && QuietFrames(t, w.d + 1).steps == t.steps + 1
  {
    var t := Tick(w);
    QuietFramesStep(t, m);
    QuietFramesStep(t, w.d + 1);
  }

  /** While playing, clicks and the plain S key change nothing. */
  lemma PlayingIgnoresEdits(w: World, e: Event)
    requires WellFormed(w) && w.play
    requires e.MouseUp? || e == KeyUp(KeyS)
    ensures Handle(w, e) == Running(w)
  {
  }

  /** Events that can change the step counter: a manual step, a reset, a load. */
  predicate TouchesSteps(e: Event)
  {
    e.LoadRequest? || e == KeyUp(KeyS) || e == KeyUp(KeyR)
  }

  /** In a frame without a manual step, a reset or a load, the step counter
      goes up by one if the divider lets a step through after the events,
      and is unchanged otherwise. */
  lemma {:induction false} StepsOnlyByStepping(w: World, evs: seq<Event>)
    requires WellFormed(w)
    requires forall i :: 0 <= i < |evs| ==> !TouchesSteps(evs[i])
    ensures Events(w, evs).Running? && Events(w, evs).world.steps == w.steps
    ensures Frame(w, evs).Running?
    ensures Frame(w, evs).world.steps == w.steps + (if Due(Events(w, evs).world) then 1 else 0)
    decreases |evs|
  {
    if evs != [] {
      var prefix, last := evs[..|evs| - 1], evs[|evs| - 1];
      StepsOnlyByStepping(w, prefix);
      HandleKeepsSteps(Events(w, prefix).world, last);
    }
  }

  lemma HandleKeepsSteps(w: World, e: Event)
    requires WellFormed(w) && !TouchesSteps(e)
    ensures Handle(w, e).Running? && Handle(w, e).world.steps == w.steps
  {
  }

  /** The R key pauses the game and leaves a dead board with no steps at the
      end of the frame. */
  lemma ResetKeyFrame(w: World)
    requires WellFormed(w)
    ensures Frame(w, [KeyUp(KeyR)]).Running?
    ensures var r := Frame(w, [KeyUp(KeyR)]).world;
            !r.play && r.alive == Dead() && r.steps == 0
  {
  }

  class Game {
    const life: Life
    const cc: Dif
    var play: bool
    var run: bool
    /** The flag lists written by the save requests so far, oldest first. */
    var saved: seq<seq<bool>>

    ghost predicate Valid()
      reads this, life, life.board, cc
    {
      life.Valid() && cc.d >= 0
    }

    ghost function View(): World
      reads this, life, life.board, cc
    {
      World(life.Alive(), life.steps, play, run, cc.d, cc.c, saved)
    }

    /** The state the program starts in: a dead board, paused, period 15. */
    constructor ()
      ensures Valid()
      ensures View() == World(Dead(), 0, false, true, InitialPeriod, InitialPeriod, [])
    {
      life := new Life();
      cc := new Dif(InitialPeriod);
      play := false;
      run := true;
      saved := [];
    }

    /** Handles one event; ok is false when it crashed the program. */
    method HandleEvent(e: Event) returns (ok: bool)
      requires Valid()
      modifies this, life, life.board, cc
      ensures ok == Handle(old(View()), e).Running?
      ensures ok ==> Valid() && View() == Handle(old(View()), e).world
      ensures forall i :: 0 <= i < |life.board| ==> life.board[i] in old(life.board) || fresh(life.board[i])
    {
      ok := true;
      match e
      case Quit =>
        run := false;
      case MouseUp(px, py) =>
        if !play {
          ClickAt(px, py);
        }
      case SaveRequest =>
        var data := life.SaveBoard();
        saved := saved + [data];
      case LoadRequest(data) =>
        ok := life.LoadBoard(data);
      case KeyUp(key) =>
        match key
        case KeyS =>
          if !play {
            life.StepSimulation();
          }
        case KeyLeft =>
          cc.IncD(TempoStep);
        case KeyRight =>
          cc.IncD(-TempoStep);
        case KeySpace =>
          play := !play;
        case KeyR =>
          play := false;
          life.Reset();
        case OtherKey =>
    }

    /** A click at (px, py) toggles the first cell whose rectangle contains
        the point, if there is one. */
    method ClickAt(px: int, py: int)
      requires Valid()
      modifies life.board
      ensures Valid()
      ensures life.Alive() == if InWindow(px, py)
                              then old(life.Alive())[CellAt(px, py) := !old(life.Alive())[CellAt(px, py)]]
                              else old(life.Alive())
    {
      var rects := life.GetRects();
      var i := 0;
      while i < |rects| && !Contains(rects[i], px, py)
        invariant 0 <= i <= |rects|
        invariant forall j :: 0 <= j < i ==> !Contains(rects[j], px, py)
      {
        i := i + 1;
      }
      ghost var before := life.Alive();
      CellUnderPoint(px, py);
      if i < |rects| {
        RectsTileWindow(px, py, i);
        life.board[i].Toggle();
        assert life.Alive() == before[i := !before[i]];
      }
    }

    /** Handles a frame's events in order; ok is false when one of them
        crashed the program, and no later event is handled then. */
    method HandleEvents(events: seq<Event>) returns (ok: bool)
      requires Valid()
      modifies this, life, life.board, cc
      ensures ok == Events(old(View()), events).Running?
      ensures ok ==> Valid() && View() == Events(old(View()), events).world
      ensures forall i :: 0 <= i < |life.board| ==> life.board[i] in old(life.board) || fresh(life.board[i])
    {
      ghost var w0 := View();
      ok := true;
      for i := 0 to |events|
        invariant Valid() && Events(w0, events[..i]) == Running(View())
        invariant forall j :: 0 <= j < |life.board| ==> life.board[j] in old(life.board) || fresh(life.board[j])
      {
        assert events[..i + 1][..i] == events[..i];
        ok := HandleEvent(events[i]);
        if !ok {
          CrashIsFinal(w0, events, i + 1);
          return;
        }
      }
      assert events[..|events|] == events;
    }

    /** The end of a frame: a step if playing and the divider is due, then
        the countdown. */
    method EndFrame()
      requires Valid()
      modifies life, life.board, cc
      ensures Valid() && View() == Tick(old(View()))
      ensures forall i :: 0 <= i < |life.board| ==> life.board[i] in old(life.board) || fresh(life.board[i])
    {
      if play {
        var due := cc.Lt(0);
        if due {
          cc.Reset();
          life.StepSimulation();
        }
      }
      cc.Woop();
    }

    /** Runs one frame; ok is false when its events crashed the program. */
    method RunFrame(events: seq<Event>) returns (ok: bool)
      requires Valid()
      modifies this, life, life.board, cc
      ensures ok == Frame(old(View()), events).Running?
      ensures ok ==> Valid() && View() == Frame(old(View()), events).world
      ensures forall i :: 0 <= i < |life.board| ==> life.board[i] in old(life.board) || fresh(life.board[i])
    {
      ok := HandleEvents(events);
      if ok {
        EndFrame();
      }
    }

    /** The main loop: runs the frames in order while run holds; ok is false
        when a frame crashed the program. */
    method Run(frames: seq<seq<Event>>) returns (ok: bool)
      requires Valid()
      modifies this, life, life.board, cc
      ensures ok == Session(old(View()), frames).Running?
      ensures ok ==> Valid() && View() == Session(old(View()), frames).world
    {
      ghost var w0 := View();
      ok := true;
      var i := 0;
      while i < |frames| && run
        invariant 0 <= i <= |frames|
        invariant Valid() && Session(w0, frames) == Session(View(), frames[i..])
        invariant forall j :: 0 <= j < |life.board| ==> life.board[j] in old(life.board) || fresh(life.board[j])
      {
        ok := RunFrame(frames[i]);
        if !ok {
          return;
        }
        i := i + 1;
      }
    }
  }
}
