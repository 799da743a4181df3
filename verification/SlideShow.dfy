/** The slide show: a cursor over the files, and three slots of image loading tasks (current, next, previous)
    that are rotated when the user steps on while tasks complete on another thread. */
module SlideShow {
  // ---------------------------------------------------------------- the file list

  /** Which of n files is current, in a list that may be a loop. */
  datatype Cursor = Cursor(n: nat, loop: bool, current: nat) {
    predicate Ok() { current < n }

    /** The file after the current one, or -1. */
    function Next(): int { if current + 1 < n then current + 1 else if loop then 0 else -1 }

    function Prev(): int { if current > 0 then current - 1 else if loop then n - 1 else -1 }

    function At(i: int): Cursor
      requires i >= 0
    {
      Cursor(n, loop, i)
    }

    function Step(forward: bool): int { if forward then Next() else Prev() }
  }

  /** A step either way is undone by a step the other way, and the neighbor is the file stepped to. */
  lemma StepsUndo(c: Cursor, forward: bool)
    requires c.Ok() && c.Step(forward) >= 0
    ensures c.At(c.Step(forward)).Ok() && c.At(c.Step(forward)).Step(!forward) == c.current
  {
  }

  /** Stepping goes to the next file or the one before, around the ends exactly in a loop. */
  lemma StepsAlong(c: Cursor, forward: bool)
    requires c.Ok()
    ensures c.Step(forward) >= 0 <==> c.loop || (if forward then c.current < c.n - 1 else c.current > 0)
    ensures c.Step(forward) >= 0 ==> c.Step(forward) == (c.current + (if forward then 1 else c.n - 1)) % c.n
  {
  }

  class Files {
    var theFiles: seq<string>
    var prev: int
    var current: int
    var next: int
    var loop: bool

    predicate Listed()
      reads this
    {
      0 <= current < |theFiles|
    }

    function Place(): Cursor
      requires Listed()
      reads this
    {
      Cursor(|theFiles|, loop, current)
    }

    predicate Valid()
      reads this
    {
      Listed() && next == Place().Next() && prev == Place().Prev()
    }

    constructor ()
      ensures theFiles == [] && current == 0 && prev == -1 && next == 1 && !loop
    {
      theFiles, prev, current, next, loop := [], -1, 0, 1, false;
    }

    method Add(path: string)
      modifies this`theFiles
      ensures theFiles == old(theFiles) + [path]
    {
      theFiles := theFiles + [path];
    }

    method SetLoop(loop: bool)
      requires Listed()
      modifies this`loop, this`prev, this`next
      ensures Valid() && this.loop == loop
    {
      this.loop := loop;
      prev := GetPrev();
      next := GetNext();
    }

    method GetPrev() returns (p: int)
      requires Listed()
      ensures p == Place().Prev()
    {
      p := current - 1;
      if p < 0 {
        if loop { p := |theFiles| - 1; } else { p := -1; }
      }
    }

    method GetNext() returns (n: int)
      requires Listed()
      ensures n == Place().Next()
    {
      n := current + 1;
      if n >= |theFiles| {
        if loop { n := 0; } else { n := -1; }
      }
    }

    /** Moves forward one file; false at the end of the list. */
    method Next() returns (moved: bool)
      requires Valid()
      modifies this`current, this`prev, this`next
      ensures Valid() && moved == (old(next) >= 0)
      ensures current == if moved then old(next) else old(current)
      ensures moved <==> loop || old(current) + 1 < |theFiles|
      ensures moved ==> current == if old(current) + 1 < |theFiles| then old(current) + 1 else 0
    {
      if current + 1 < |theFiles| { current := current + 1; }
      else if loop { current := 0; }
      else { return false; }
      next := GetNext();
      prev := GetPrev();
      return true;
    }

    /** Moves back one file. */
    method Previous() returns (moved: bool)
      requires Valid()
      modifies this`current, this`prev, this`next
      ensures Valid() && moved == (old(prev) >= 0)
      ensures current == if moved then old(prev) else old(current)
      ensures moved <==> loop || old(current) > 0
      ensures moved ==> current == if old(current) > 0 then old(current) - 1 else |theFiles| - 1
    {
      if current > 0 { current := current - 1; }
      else if loop { current := |theFiles| - 1; }
      else { return false; }
      next := GetNext();
      prev := GetPrev();
      return true;
    }
  }

  // ---------------------------------------------------------------- the show, as a state machine

  /** What has become of a task's computation. */
  datatype Outcome = Pending | Succeeded | Failed | Cancelled

  /** `running` is what the event thread knows; `told` is set once `succeeded` or `failed` has been called. */
  datatype Task = Task(path: string, running: bool, outcome: Outcome, told: bool)

  /** The slots hold task numbers, or -1.  `displays` records each time a task's image was put on view, with
      the path of the current file at that moment. */
  datatype Show = Show(paths: seq<string>, cursor: Cursor, savePrevious: bool, tasks: seq<Task>,
                       current: int, next: int, prev: int, displays: seq<(nat, string)>, busy: bool)

  /** The user or the timer asks for another image; the worker thread reports and completes tasks; the event
      thread is told of a completion. */
  datatype Action = Request(forward: bool) | Report(id: nat) | Complete(id: nat, ok: bool) | Tell(id: nat)

  function Url(path: string): string { "file:" + path }

  function NewTask(path: string): Task { Task(Url(path), false, Pending, false) }

  predicate Shaped(s: Show) {
    && s.cursor.Ok() && s.cursor.n == |s.paths|
    && -1 <= s.current < |s.tasks| && -1 <= s.next < |s.tasks| && -1 <= s.prev < |s.tasks|
  }

  predicate Enabled(s: Show, a: Action) {
    match a
    case Request(_) => true
    case Report(id) => id < |s.tasks| && !s.tasks[id].told
    case Complete(id, _) => id < |s.tasks| && s.tasks[id].outcome == Pending
    case Tell(id) => id < |s.tasks| && s.tasks[id].outcome in {Succeeded, Failed} && !s.tasks[id].told
  }

  /** A task that runs is cancelled, unless its computation is over. */
  function CancelTask(tasks: seq<Task>, id: int): (r: seq<Task>)
    requires -1 <= id < |tasks|
    ensures Grown(tasks, r) && |r| == |tasks| && forall i :: 0 <= i < |r| && i != id ==> r[i] == tasks[i]
  {
    if id >= 0 && tasks[id].running && tasks[id].outcome == Pending
    then tasks[id := tasks[id].(running := false, outcome := Cancelled)] else tasks
  }

  /** Tasks stay, keep their paths, and do not change their outcome once there is one. */
  predicate Grown(was: seq<Task>, now: seq<Task>) {
    && |was| <= |now|
    && forall i :: 0 <= i < |was| ==> now[i].path == was[i].path && now[i].told == was[i].told
                                      && (was[i].outcome != Pending ==> now[i].outcome == was[i].outcome)
  }

  /** `setCurrentImage`. */
  function Display(s: Show, id: nat): Show
    requires Shaped(s)
  {
    s.(displays := s.displays + [(id, Url(s.paths[s.cursor.current]))], busy := false)
  }

  /** The cursor moves on; the slot left behind is given up or takes the current task, and the task ahead
      becomes the current one. */
  function Turn(s: Show, forward: bool): (r: Show)
    requires Shaped(s) && s.cursor.Step(forward) >= 0 && s.current >= 0
    ensures Shaped(r)
  {
    var cancelled := CancelTask(s.tasks, if forward then s.prev else s.next);
    var tasks := if s.savePrevious then cancelled else CancelTask(cancelled, s.current);
    var kept := if s.savePrevious then s.current else -1;
    var moved := s.(cursor := s.cursor.At(s.cursor.Step(forward)), tasks := tasks);
    if forward then moved.(prev := kept, current := s.next, next := -1) else moved.(next := kept, current := s.prev, prev := -1)
  }

  /** The current image is loaded, or put on view if it is there already. */
  function Arrive(s: Show): (r: Show)
    requires Shaped(s)
    ensures Shaped(r) && r.current >= 0
  {
    if s.current < 0 then
      s.(tasks := s.tasks + [NewTask(s.paths[s.cursor.current])], current := |s.tasks|, busy := true)
    else if s.tasks[s.current].outcome != Pending then Display(s, s.current)
    else s.(busy := true)
  }

  /** The file ahead gets a task. */
  function Prefetch(s: Show, forward: bool): (r: Show)
    requires Shaped(s)
    ensures Shaped(r) && r.current == s.current
  {
    var file := s.cursor.Step(forward);
    if file < 0 then s else
      var loading := s.(tasks := s.tasks + [NewTask(s.paths[file])]);
      if forward then loading.(next := |s.tasks|) else loading.(prev := |s.tasks|)
  }

  /** `nextImage` when there is a file to go to. */
  function Rotate(s: Show, forward: bool): (r: Show)
    requires Shaped(s) && s.cursor.Step(forward) >= 0 && s.current >= 0
    ensures Shaped(r) && r.current >= 0
  {
    Prefetch(Arrive(Turn(s, forward)), forward)
  }

  function Next(s: Show, a: Action): (r: Show)
    requires Shaped(s) && s.current >= 0 && Enabled(s, a)
    ensures Shaped(r) && r.current >= 0
  {
    match a
    case Request(forward) => if s.cursor.Step(forward) < 0 then s else Rotate(s, forward)
    case Report(id) => s.(tasks := s.tasks[id := s.tasks[id].(running := s.tasks[id].outcome != Cancelled)])
    case Complete(id, ok) => s.(tasks := s.tasks[id := s.tasks[id].(outcome := if ok then Succeeded else Failed)])
    case Tell(id) =>
      var told := s.(tasks := s.tasks[id := s.tasks[id].(running := false, told := true)]);
      if s.tasks[id].outcome == Succeeded && s.current == id then Display(told, id) else told
  }

  /** `start`: the current file's task and the next one's. */
  function Start(paths: seq<string>, loop: bool, savePrevious: bool): Show
    requires paths != []
  {
    Prefetch(Arrive(Show(paths, Cursor(|paths|, loop, 0), savePrevious, [], -1, -1, -1, [], true)), true)
  }

  // ---------------------------------------------------------------- what always holds

  /** A slot is empty, or holds an uncancelled task for the file. */
  predicate SlotFor(s: Show, id: int, file: int)
    requires -1 <= id < |s.tasks|
  {
    id >= 0 ==> 0 <= file < |s.paths| && s.tasks[id].path == Url(s.paths[file]) && s.tasks[id].outcome != Cancelled
  }

  /** The slots match the cursor, and no task is in two of them. */
  predicate Slots(s: Show) {
    && Shaped(s)
    && SlotFor(s, s.current, s.cursor.current) && SlotFor(s, s.next, s.cursor.Next()) && SlotFor(s, s.prev, s.cursor.Prev())
    && (s.current >= 0 ==> s.current != s.next && s.current != s.prev) && (s.next >= 0 ==> s.next != s.prev)
  }

  function OnView(s: Show): int { if s.displays == [] then -1 else s.displays[|s.displays| - 1].0 }

  /** Whatever was put on view had been loaded, and for the file that was current then. */
  predicate ShownRight(s: Show) {
    && (forall d :: d in s.displays ==>
          d.0 < |s.tasks| && s.tasks[d.0].path == d.1 && s.tasks[d.0].outcome in {Succeeded, Failed})
    && (forall i :: 0 <= i < |s.tasks| && s.tasks[i].told ==> s.tasks[i].outcome in {Succeeded, Failed})
  }

  /** The busy indicator shows exactly while the image on view is not the current slot's, and it does not stay
      once the event thread has been told that the current image is there. */
  predicate Settled(s: Show)
    requires Shaped(s)
  {
    && (s.busy <==> OnView(s) != s.current)
    && (s.current >= 0 && s.tasks[s.current].told && s.tasks[s.current].outcome == Succeeded ==> !s.busy)
  }

  ghost predicate Good(s: Show) { Slots(s) && s.current >= 0 && ShownRight(s) && Settled(s) }

  lemma TurnKeeps(s: Show, forward: bool)
    requires Good(s) && s.cursor.Step(forward) >= 0
    ensures Slots(Turn(s, forward)) && ShownRight(Turn(s, forward))
  {
    hide Url;
    StepsUndo(s.cursor, forward);
  }

  lemma ArriveSettles(s: Show)
    requires Slots(s) && ShownRight(s)
    ensures Good(Arrive(s))
  {
    hide Url;
  }

  lemma PrefetchKeeps(s: Show, forward: bool)
    requires Good(s) && if forward then s.next < 0 else s.prev < 0
    ensures Good(Prefetch(s, forward))
  {
    hide Url;
  }

  lemma StepKeepsGood(s: Show, a: Action)
    requires Good(s) && Enabled(s, a)
    ensures Good(Next(s, a))
  {
    if a.Request? {
      if s.cursor.Step(a.forward) >= 0 {
        hide Good;
        TurnKeeps(s, a.forward);
        ArriveSettles(Turn(s, a.forward));
        PrefetchKeeps(Arrive(Turn(s, a.forward)), a.forward);
      }
    } else {
      OtherStepKeepsGood(s, a);
    }
  }

  lemma OtherStepKeepsGood(s: Show, a: Action)
    requires Good(s) && Enabled(s, a) && !a.Request?
    ensures Good(Next(s, a))
  {
    match a {
      case Report(id) => ReplaceKeepsGood(s, id, s.tasks[id].(running := s.tasks[id].outcome != Cancelled));
      case Complete(id, ok) => ReplaceKeepsGood(s, id, s.tasks[id].(outcome := if ok then Succeeded else Failed));
      case Tell(id) => TellKeepsGood(s, id);
    }
  }

  /** News about a task that the event thread has not been told about. */
  lemma ReplaceKeepsGood(s: Show, id: nat, t: Task)
    requires Good(s) && id < |s.tasks| && !s.tasks[id].told && t.path == s.tasks[id].path && !t.told
    requires t.outcome == s.tasks[id].outcome || (s.tasks[id].outcome == Pending && t.outcome != Cancelled)
    ensures Good(s.(tasks := s.tasks[id := t]))
  {
    hide Url;
  }

  lemma TellKeepsGood(s: Show, id: nat)
    requires Good(s) && Enabled(s, Tell(id))
    ensures Good(Next(s, Tell(id)))
  {
    hide Url, Slots, ShownRight;
    ToldKeeps(s, id);
    if s.tasks[id].outcome == Succeeded && s.current == id {
      DisplayKeeps(s.(tasks := s.tasks[id := s.tasks[id].(running := false, told := true)]));
    }
  }

  lemma ToldKeeps(s: Show, id: nat)
    requires Slots(s) && ShownRight(s) && Enabled(s, Tell(id))
    ensures var r := s.(tasks := s.tasks[id := s.tasks[id].(running := false, told := true)]); Slots(r) && ShownRight(r)
  {
    hide Url;
  }

  lemma DisplayKeeps(s: Show)
    requires Slots(s) && ShownRight(s) && s.current >= 0 && s.tasks[s.current].outcome == Succeeded
    ensures Slots(Display(s, s.current)) && ShownRight(Display(s, s.current))
  {
    hide Url;
  }

  lemma StartIsGood(paths: seq<string>, loop: bool, savePrevious: bool)
    requires paths != []
    ensures Good(Start(paths, loop, savePrevious))
  {
    var empty := Show(paths, Cursor(|paths|, loop, 0), savePrevious, [], -1, -1, -1, [], true);
    ArriveSettles(empty);
    PrefetchKeeps(Arrive(empty), true);
  }

  /** The show starts at the first file, busy, with that file and the next one, if there is one, being loaded. */
  lemma StartLoads(paths: seq<string>, loop: bool, savePrevious: bool)
    requires paths != []
    ensures var s := Start(paths, loop, savePrevious);
      && s.busy && s.displays == [] && s.prev == -1 && s.cursor.current == 0 == s.current
      && s.tasks[0] == Task("file:" + paths[0], false, Pending, false)
      && if |paths| > 1 || loop
         then |s.tasks| == 2 && s.next == 1 && s.tasks[1] == Task("file:" + paths[1 % |paths|], false, Pending, false)
         else |s.tasks| == 1 && s.next == -1
  {
  }

  // ---------------------------------------------------------------- runs

  predicate Runs(s: Show, run: seq<Action>)
    requires Shaped(s) && s.current >= 0
    decreases |run|
  {
    run != [] ==> Enabled(s, run[0]) && Runs(Next(s, run[0]), run[1..])
  }

  function After(s: Show, run: seq<Action>): (r: Show)
    requires Shaped(s) && s.current >= 0 && Runs(s, run)
    ensures Shaped(r) && r.current >= 0
    decreases |run|
  {
    if run == [] then s else After(Next(s, run[0]), run[1..])
  }

  lemma {:induction false} GoodFrom(s: Show, run: seq<Action>)
    requires Good(s) && Runs(s, run)
    ensures Good(After(s, run))
    decreases |run|
  {
    hide Next, ShownRight, Settled;
    if run != [] {
      StepKeepsGood(s, run[0]);
      GoodFrom(Next(s, run[0]), run[1..]);
    }
  }

  /** Over every run of requests and completions from the start: each slot holds an uncancelled task of its
      own for its neighbor's file, only images of the then current file are put on view, and the busy indicator
      shows exactly while the image on view is not that of the current slot. */
  lemma AlwaysGood(paths: seq<string>, loop: bool, savePrevious: bool, run: seq<Action>)
    requires paths != [] && Runs(Start(paths, loop, savePrevious), run)
    ensures var s := After(Start(paths, loop, savePrevious), run);
      && SlotFor(s, s.current, s.cursor.current) && SlotFor(s, s.next, s.cursor.Next()) && SlotFor(s, s.prev, s.cursor.Prev())
      && s.current != s.next && s.current != s.prev && (s.next >= 0 ==> s.next != s.prev)
      && (forall d :: d in s.displays ==> d.0 < |s.tasks| && s.tasks[d.0].path == d.1)
      && (s.busy <==> OnView(s) != s.current)
      && (!s.busy ==> OnView(s) >= 0 && s.tasks[OnView(s)].path == Url(s.paths[s.cursor.current]))
  {
    hide Url;
    StartIsGood(paths, loop, savePrevious);
    GoodFrom(Start(paths, loop, savePrevious), run);
  }

  lemma TurnParts(s: Show, forward: bool)
    requires Shaped(s) && s.cursor.Step(forward) >= 0 && s.current >= 0
    ensures var r := Turn(s, forward);
      && r.displays == s.displays && r.paths == s.paths && r.savePrevious == s.savePrevious
      && r.cursor == s.cursor.At(s.cursor.Step(forward))
      && r.current == (if forward then s.next else s.prev)
      && (if forward then r.prev else r.next) == if s.savePrevious then s.current else -1
  {
  }

  lemma ArriveParts(s: Show)
    requires Shaped(s)
    ensures var r := Arrive(s);
      && r.paths == s.paths && r.cursor == s.cursor && r.savePrevious == s.savePrevious && r.next == s.next && r.prev == s.prev
      && (s.current >= 0 ==> r.current == s.current)
      && (r.busy <==> r.tasks[r.current].outcome == Pending)
      && (r.displays == s.displays || r.displays == s.displays + [(r.current as nat, Url(s.paths[s.cursor.current]))])
  {
  }

  lemma PrefetchParts(s: Show, forward: bool)
    requires Shaped(s)
    ensures var r := Prefetch(s, forward);
      && r.paths == s.paths && r.cursor == s.cursor && r.displays == s.displays && r.savePrevious == s.savePrevious
      && r.busy == s.busy && (s.current >= 0 ==> r.tasks[s.current] == s.tasks[s.current])
      && if forward then r.prev == s.prev else r.next == s.next
  {
  }

  lemma RotateParts(s: Show, forward: bool)
    requires Shaped(s) && s.cursor.Step(forward) >= 0 && s.current >= 0
    ensures var r := Rotate(s, forward);
      && r.paths == s.paths && r.cursor == s.cursor.At(s.cursor.Step(forward)) && r.savePrevious == s.savePrevious
      && (if forward then r.prev else r.next) == (if s.savePrevious then s.current else -1)
      && (var ahead := if forward then s.next else s.prev; ahead >= 0 ==> r.current == ahead)
      && (r.displays == s.displays || r.displays == s.displays + [(r.current as nat, Url(r.paths[r.cursor.current]))])
  {
    hide Turn, Arrive, Prefetch, Url;
    TurnParts(s, forward);
    ArriveParts(Turn(s, forward));
    PrefetchParts(Arrive(Turn(s, forward)), forward);
  }

  /** Putting an image on view records the current file. */
  lemma DisplaysRecordTheCurrentFile(s: Show, a: Action)
    requires Good(s) && Enabled(s, a)
    ensures var r := Next(s, a);
      r.displays == s.displays || r.displays == s.displays + [(r.current as nat, Url(r.paths[r.cursor.current]))]
  {
    hide Url, Rotate;
    if a.Request? && s.cursor.Step(a.forward) >= 0 { RotateParts(s, a.forward); }
  }

  /** After a step the file ahead of the new one is being loaded, if there is one. */
  lemma StepLoadsAhead(s: Show, forward: bool)
    requires Good(s) && s.cursor.Step(forward) >= 0
    ensures var r := Next(s, Request(forward));
      (if forward then r.next else r.prev) >= 0 <==> r.cursor.Step(forward) >= 0
  {
    hide Url;
  }

  /** With the previous image saved, stepping there and back finds the same task again. */
  lemma ThereAndBack(s: Show, forward: bool)
    requires Good(s) && s.cursor.Step(forward) >= 0 && s.savePrevious
    ensures var r := Next(Next(s, Request(forward)), Request(!forward));
      r.cursor == s.cursor && r.current == s.current
  {
    hide Rotate;
    StepsUndo(s.cursor, forward);
    RotateParts(s, forward);
    RotateParts(Rotate(s, forward), !forward);
  }

  // ---------------------------------------------------------------- tasks given up

  /** What a request that moves does to the tasks there were: the one in the slot behind, and the current one
      unless it is saved, are cancelled if they run and are not over; the others stay as they are. */
  ghost predicate Leaves(was: seq<Task>, behind: int, current: int, savePrevious: bool, now: seq<Task>) {
    && |was| <= |now|
    && forall id :: 0 <= id < |was| ==>
         var givenUp := id == behind || (id == current && !savePrevious);
         if givenUp && was[id].running && was[id].outcome == Pending
         then now[id] == was[id].(running := false, outcome := Cancelled) else now[id] == was[id]
  }

  lemma TurnLeaves(s: Show, forward: bool)
    requires Shaped(s) && s.cursor.Step(forward) >= 0 && s.current >= 0
    ensures var r := Turn(s, forward);
      && |r.tasks| == |s.tasks|
      && Leaves(s.tasks, if forward then s.prev else s.next, s.current, s.savePrevious, r.tasks)
  {
  }

  predicate Fresh(t: Task) { !t.running && !t.told && t.outcome == Pending }

  lemma OnlyNewTasks(s: Show, forward: bool)
    requires Shaped(s)
    ensures s.tasks <= Arrive(s).tasks && s.tasks <= Prefetch(s, forward).tasks
    ensures forall id :: |s.tasks| <= id < |Arrive(s).tasks| ==> Fresh(Arrive(s).tasks[id])
    ensures forall id :: |s.tasks| <= id < |Prefetch(s, forward).tasks| ==> Fresh(Prefetch(s, forward).tasks[id])
  {
    hide Url;
  }

  lemma RequestLeaves(s: Show, forward: bool)
    requires Shaped(s) && s.current >= 0 && s.cursor.Step(forward) >= 0
    ensures var r := Next(s, Request(forward));
      && Leaves(s.tasks, if forward then s.prev else s.next, s.current, s.savePrevious, r.tasks)
      && forall id :: |s.tasks| <= id < |r.tasks| ==> Fresh(r.tasks[id])
  {
    hide Turn, Arrive, Prefetch, Fresh;
    var t := Turn(s, forward);
    TurnLeaves(s, forward);
    OnlyNewTasks(t, forward);
    OnlyNewTasks(Arrive(t), forward);
    assert forall id :: 0 <= id < |s.tasks| ==> Next(s, Request(forward)).tasks[id] == t.tasks[id];
  }

  /** The action is a request that moves on and gives up a task that runs and is not over. */
  predicate GivesUp(s: Show, a: Action, id: nat)
    requires Shaped(s)
  {
    && a.Request? && s.cursor.Step(a.forward) >= 0
    && (id == (if a.forward then s.prev else s.next) || (id == s.current && !s.savePrevious))
    && id < |s.tasks| && s.tasks[id].running && s.tasks[id].outcome == Pending
  }

  /** Somewhere in the run. */
  predicate GivenUp(s: Show, run: seq<Action>, id: nat)
    requires Shaped(s) && s.current >= 0 && Runs(s, run)
    decreases |run|
  {
    run != [] && (GivesUp(s, run[0], id) || GivenUp(Next(s, run[0]), run[1..], id))
  }

  /** Nothing is taken to run that is known to be over. */
  predicate RunsTrue(s: Show) {
    forall id :: 0 <= id < |s.tasks| && s.tasks[id].running ==> !s.tasks[id].told && s.tasks[id].outcome != Cancelled
  }

  predicate IsCancelled(s: Show, id: nat) { id < |s.tasks| && s.tasks[id].outcome == Cancelled }

  predicate IsTold(s: Show, id: nat) { id < |s.tasks| && s.tasks[id].told }

  predicate IsRunning(s: Show, id: nat) { id < |s.tasks| && s.tasks[id].running }

  /** What a step does to one task. */
  ghost predicate TaskSteps(s: Show, a: Action, id: nat, r: Show)
    requires Shaped(s)
  {
    && RunsTrue(r) && (IsTold(s, id) ==> IsTold(r, id))
    && (IsCancelled(r, id) <==> IsCancelled(s, id) || GivesUp(s, a, id))
    && (IsRunning(r, id) <==> (a == Report(id) || IsRunning(s, id)) && !IsTold(r, id) && !IsCancelled(r, id))
  }

  lemma TaskLeft(s: Show, forward: bool, id: nat, r: Show)
    requires Shaped(s) && RunsTrue(s) && s.cursor.Step(forward) >= 0
    requires Leaves(s.tasks, if forward then s.prev else s.next, s.current, s.savePrevious, r.tasks)
    requires forall i :: |s.tasks| <= i < |r.tasks| ==> Fresh(r.tasks[i])
    ensures TaskSteps(s, Request(forward), id, r)
  {
  }

  lemma OtherTaskStep(s: Show, a: Action, id: nat)
    requires Shaped(s) && s.current >= 0 && Enabled(s, a) && RunsTrue(s) && !a.Request?
    ensures TaskSteps(s, a, id, Next(s, a))
  {
    hide Url;
  }

  lemma TaskStep(s: Show, a: Action, id: nat)
    requires Shaped(s) && s.current >= 0 && Enabled(s, a) && RunsTrue(s)
    ensures TaskSteps(s, a, id, Next(s, a))
  {
    hide Rotate, Leaves, Fresh;
    if !a.Request? {
      OtherTaskStep(s, a, id);
    } else if s.cursor.Step(a.forward) >= 0 {
      RequestLeaves(s, a.forward);
      TaskLeft(s, a.forward, id, Next(s, a));
    }
  }

  lemma {:induction false} TasksFrom(s: Show, run: seq<Action>, id: nat)
    requires Shaped(s) && s.current >= 0 && Runs(s, run) && RunsTrue(s)
    ensures var r := After(s, run);
      && (IsTold(s, id) ==> IsTold(r, id))
      && (IsCancelled(r, id) <==> IsCancelled(s, id) || GivenUp(s, run, id))
      && (IsRunning(r, id) <==> (Report(id) in run || IsRunning(s, id)) && !IsTold(r, id) && !IsCancelled(r, id))
    decreases |run|
  {
    if run != [] {
      hide Shaped, Next, RunsTrue, GivesUp, IsTold, IsCancelled, IsRunning, Enabled;
      TaskStep(s, run[0], id);
      TasksFrom(Next(s, run[0]), run[1..], id);
      assert run == [run[0]] + run[1..];
    }
  }

  /** Over every run: a task is cancelled exactly if a request that moved gave it up while it ran and was not
      over, and taken to run exactly if it was reported running and is neither cancelled nor told to be over. */
  lemma CancelledIffGivenUp(paths: seq<string>, loop: bool, savePrevious: bool, run: seq<Action>, id: nat)
    requires paths != [] && Runs(Start(paths, loop, savePrevious), run)
    ensures var start := Start(paths, loop, savePrevious); var r := After(start, run);
      && (IsCancelled(r, id) <==> GivenUp(start, run, id))
      && (IsRunning(r, id) <==> Report(id) in run && !IsTold(r, id) && !IsCancelled(r, id))
  {
    hide Url, Runs, After, GivenUp;
    TasksFrom(Start(paths, loop, savePrevious), run, id);
  }

  /** A task that runs is cancelled when the show moves on; one that still waits in the queue is not. */
  lemma RunningIsCancelled()
    ensures var start := Start(["a", "b"], false, false);
      && Runs(start, [Report(0), Request(true)])
      && After(start, [Report(0), Request(true)]).tasks[0] == Task(Url("a"), false, Cancelled, false)
      && Next(start, Request(true)).tasks[0] == Task(Url("a"), false, Pending, false)
  {
    hide Url, Runs, After;
    var paths := ["a", "b"];
    var start := Start(paths, false, false);
    var a, b := Task(Url("a"), false, Pending, false), Task(Url("b"), false, Pending, false);
    assert start == Show(paths, Cursor(2, false, 0), false, [a, b], 0, 1, -1, [], true);
    var running := Show(paths, Cursor(2, false, 0), false, [a.(running := true), b], 0, 1, -1, [], true);
    assert Next(start, Report(0)) == running;
    TwoSteps(start, Report(0), Request(true));
    RequestLeaves(running, true);
    RequestLeaves(start, true);
  }

  predicate NoRequests(run: seq<Action>) { forall a :: a in run ==> !a.Request? }

  /** While nobody steps on, the busy indicator goes out only when the event thread is told that the current
      image is there. */
  lemma {:induction false} BusyUntilTold(s: Show, run: seq<Action>)
    requires Good(s) && Runs(s, run) && NoRequests(run)
    ensures var r := After(s, run);
      && r.current == s.current && |s.tasks| <= |r.tasks|
      && (r.busy <==> s.busy && !(r.tasks[r.current].told && r.tasks[r.current].outcome == Succeeded))
    decreases |run|
  {
    hide Url, ShownRight, Next;
    if run != [] {
      assert !run[0].Request?;
      var t := Next(s, run[0]);
      StepKeepsGood(s, run[0]);
      BusyUntilTold(t, run[1..]);
      BusyStep(s, run[0]);
      if t.tasks[s.current].told { ToldStays(t, run[1..], s.current); }
    }
  }

  /** A task that the event thread has been told about is not news again. */
  lemma {:induction false} ToldStays(s: Show, run: seq<Action>, id: nat)
    requires Good(s) && Runs(s, run) && NoRequests(run) && id < |s.tasks| && s.tasks[id].told
    ensures var r := After(s, run); id < |r.tasks| && r.tasks[id].told && r.tasks[id].outcome == s.tasks[id].outcome
    decreases |run|
  {
    hide Url, ShownRight, Settled, Next;
    if run != [] {
      assert !run[0].Request?;
      StepKeepsGood(s, run[0]);
      ToldStep(s, run[0], id);
      ToldStays(Next(s, run[0]), run[1..], id);
    }
  }

  lemma ToldStep(s: Show, a: Action, id: nat)
    requires Good(s) && Enabled(s, a) && !a.Request? && id < |s.tasks| && s.tasks[id].told
    ensures var r := Next(s, a); id < |r.tasks| && r.tasks[id].told && r.tasks[id].outcome == s.tasks[id].outcome
  {
    hide Url, Slots, Settled;
  }

  lemma BusyStep(s: Show, a: Action)
    requires Good(s) && Enabled(s, a) && !a.Request?
    ensures var r := Next(s, a);
      && r.current == s.current && |r.tasks| == |s.tasks|
      && (r.busy <==> s.busy && !(r.tasks[r.current].told && r.tasks[r.current].outcome == Succeeded))
  {
    hide Url, Slots;
  }

  lemma StepArrives(s: Show, forward: bool)
    requires Good(s) && s.cursor.Step(forward) >= 0
    ensures var r := Next(s, Request(forward)); r.busy <==> r.tasks[r.current].outcome == Pending
  {
    hide Turn, Arrive, Prefetch;
    var t := Turn(s, forward);
    ArriveParts(t);
    PrefetchParts(Arrive(t), forward);
  }

  /** The show comes to a file at its start and with each request that moves. */
  predicate Arrives(paths: seq<string>, loop: bool, savePrevious: bool, run: seq<Action>)
    requires paths != [] && Runs(Start(paths, loop, savePrevious), run)
  {
    run == [] || (
      var init, last := run[..|run| - 1], run[|run| - 1];
      && last.Request? && Runs(Start(paths, loop, savePrevious), init)
      && var s := After(Start(paths, loop, savePrevious), init);
      s.cursor.Step(last.forward) >= 0 && After(Start(paths, loop, savePrevious), run) == Next(s, last))
  }

  /** Once the event thread has been told how the current file's task ended, and nobody has stepped on since
      the show came to that file, its image is missing exactly if the task failed and did so after the arrival:
      a task that had failed before is shown, by the icon for broken images. */
  lemma TellingShowsIff(paths: seq<string>, loop: bool, savePrevious: bool, run: seq<Action>, since: seq<Action>)
    requires paths != [] && Runs(Start(paths, loop, savePrevious), run) && Arrives(paths, loop, savePrevious, run)
    requires Runs(After(Start(paths, loop, savePrevious), run), since) && NoRequests(since)
    ensures var arrival := After(Start(paths, loop, savePrevious), run); var r := After(arrival, since);
      && r.current == arrival.current < |arrival.tasks|
      && (r.tasks[r.current].told ==>
            (OnView(r) != r.current <==>
               arrival.tasks[r.current].outcome == Pending && r.tasks[r.current].outcome == Failed))
  {
    hide Url, Slots;
    var start := Start(paths, loop, savePrevious);
    var arrival := After(start, run);
    StartIsGood(paths, loop, savePrevious);
    GoodFrom(start, run);
    if run != [] {
      GoodFrom(start, run[..|run| - 1]);
      StepArrives(After(start, run[..|run| - 1]), run[|run| - 1].forward);
    } else {
      StartIsPending(paths, loop, savePrevious);
    }
    GoodFrom(arrival, since);
    BusyUntilTold(arrival, since);
  }

  lemma StartIsPending(paths: seq<string>, loop: bool, savePrevious: bool)
    requires paths != []
    ensures var s := Start(paths, loop, savePrevious); s.busy && s.tasks[s.current].outcome == Pending
  {
  }

  /** The first of two files fails while it is shown as busy: nothing comes on view.  Stepping on and back puts
      the failed task on view. */
  lemma FailedThenShown()
    ensures var start := Start(["a", "b"], false, true); var failed := [Complete(0, false), Tell(0)];
      && Runs(start, failed) && OnView(After(start, failed)) == -1 && After(start, failed).busy
      && Runs(After(start, failed), [Request(true), Request(false)])
      && var r := After(After(start, failed), [Request(true), Request(false)]);
      r.current == 0 == OnView(r) && !r.busy && r.tasks[0].outcome == Failed
  {
    hide Url, Runs, After;
    var paths := ["a", "b"];
    var start := Start(paths, false, true);
    var a, b := Url("a"), Url("b");
    var loading := Task(b, false, Pending, false);
    assert start == Show(paths, Cursor(2, false, 0), true, [Task(a, false, Pending, false), loading], 0, 1, -1, [], true);
    var failed := Task(a, false, Failed, true);
    var told := Show(paths, Cursor(2, false, 0), true, [failed, loading], 0, 1, -1, [], true);
    TwoSteps(start, Complete(0, false), Tell(0));
    assert Next(Next(start, Complete(0, false)), Tell(0)) == told;
    var ahead := Show(paths, Cursor(2, false, 1), true, [failed, loading], 1, -1, 0, [], true);
    assert Next(told, Request(true)) == ahead;
    TwoSteps(told, Request(true), Request(false));
    ShownOnReturn(ahead);
  }

  /** A task that is over is put on view when the show steps back to it. */
  lemma ShownOnReturn(s: Show)
    requires Shaped(s) && s.current >= 0 && s.cursor.Prev() >= 0 && s.savePrevious
    requires s.prev >= 0 && s.prev != s.current && s.prev != s.next && s.tasks[s.prev].outcome in {Succeeded, Failed}
    ensures var r := Next(s, Request(false));
      r.current == s.prev == OnView(r) && !r.busy && r.tasks[s.prev].outcome == s.tasks[s.prev].outcome
  {
    hide Url;
  }

  lemma TwoSteps(s: Show, a: Action, b: Action)
    requires Shaped(s) && s.current >= 0 && Enabled(s, a) && Enabled(Next(s, a), b)
    ensures Runs(s, [a, b]) && After(s, [a, b]) == Next(Next(s, a), b)
  {
    assert [a, b][1..] == [b] && [b][1..] == [];
    var t := Next(s, a);
    assert Runs(Next(t, b), []) && After(Next(t, b), []) == Next(t, b);
    assert Runs(t, [b]) && After(t, [b]) == Next(t, b);
  }

  // ---------------------------------------------------------------- the program

  const CURRENT := 0
  const NEXT := 1
  const PREV := 2

  /** The argument loop. */
  method ListFiles(found: seq<string>) returns (files: Files)
    ensures fresh(files) && files.theFiles == found && files.current == 0
  {
    files := new Files();
    for i := 0 to |found|
      invariant files.theFiles == found[..i] && files.current == 0 && fresh(files)
    {
      files.Add(found[i]);
    }
    assert found[..|found|] == found;
  }

  class FXSlideShow {
    const imageFiles: Files
    const savePrevious: bool
    const image: array<int>
    var tasks: seq<Task>
    var displays: seq<(nat, string)>
    var busyIndicator: bool

    ghost predicate Valid()
      reads this, imageFiles, image
    {
      && imageFiles.Valid() && image.Length == 3
      && -1 <= image[CURRENT] < |tasks| && -1 <= image[NEXT] < |tasks| && -1 <= image[PREV] < |tasks|
    }

    function State(): Show
      requires imageFiles.Listed() && image.Length == 3
      reads this, imageFiles, image
    {
      Show(imageFiles.theFiles, imageFiles.Place(), savePrevious, tasks,
           image[CURRENT], image[NEXT], image[PREV], displays, busyIndicator)
    }

    /** `start`: lists the files the arguments name, which are given here as they were found, and queues the
        first ones. */
    constructor (found: seq<string>, loop: bool, savePrevious: bool)
      requires found != []
      ensures Valid() && fresh(image) && fresh(imageFiles)
      ensures State() == Start(found, loop, savePrevious)
    {
      var files := ListFiles(found);
      imageFiles, this.savePrevious, image := files, savePrevious, new int[3](_ => -1);
      tasks, displays, busyIndicator := [], [], true;
      new;
      files.SetLoop(loop);
      image[CURRENT] := Execute(files.theFiles[files.current]);
      if files.next >= 0 {
        image[NEXT] := Execute(files.theFiles[files.next]);
      }
    }

    /** Creates a task for the file and hands it to the worker thread. */
    method Execute(path: string) returns (id: nat)
      modifies this`tasks
      ensures id == old(|tasks|) && tasks == old(tasks) + [NewTask(path)]
    {
      id := |tasks|;
      tasks := tasks + [NewTask(path)];
    }

    method Cancel(id: nat)
      requires id < |tasks|
      modifies this`tasks
      ensures tasks == CancelTask(old(tasks), id)
    {
      if tasks[id].running && tasks[id].outcome == Pending {
        tasks := tasks[id := tasks[id].(running := false, outcome := Cancelled)];
      }
    }

    method SetCurrentImage(id: nat)
      requires Valid()
      modifies this`displays, this`busyIndicator
      ensures Valid() && State() == Display(old(State()), id)
    {
      displays := displays + [(id, Url(imageFiles.theFiles[imageFiles.current]))];
      busyIndicator := false;
    }

    method NextImage(forward: bool)
      requires Valid() && image[CURRENT] >= 0
      modifies this, imageFiles, image
      ensures Valid() && image[CURRENT] >= 0 && State() == Next(old(State()), Request(forward))
      ensures if old(imageFiles.Place().Step(forward)) < 0 then tasks == old(tasks) else
        Leaves(old(tasks), old(image[if forward then PREV else NEXT]), old(image[CURRENT]), savePrevious, tasks)
    {
      hide Turn, Arrive, Prefetch, Leaves;
      ghost var s := State();
      if s.cursor.Step(forward) >= 0 { RequestLeaves(s, forward); }
      var moved := TurnSlots(forward);
      if moved {
        ArriveAtImage();
        PrefetchImage(forward);
      }
    }

    /** The first half: the file list moves, and the slots with it. */
    method TurnSlots(forward: bool) returns (moved: bool)
      requires Valid() && image[CURRENT] >= 0
      modifies this`tasks, imageFiles, image
      ensures Valid() && moved == (old(State()).cursor.Step(forward) >= 0)
      ensures if moved then State() == Turn(old(State()), forward) else State() == old(State()) && image[CURRENT] >= 0
    {
      hide Url, CancelTask;
      if forward { moved := imageFiles.Next(); } else { moved := imageFiles.Previous(); }
      if moved {
        RotateSlots(if forward then NEXT else PREV, if forward then PREV else NEXT);
      }
    }

    method ArriveAtImage()
      requires Valid()
      modifies this, image
      ensures Valid() && image[CURRENT] >= 0 && State() == Arrive(old(State()))
    {
      hide Url;
      if image[CURRENT] < 0 {
        image[CURRENT] := Execute(imageFiles.theFiles[imageFiles.current]);
        busyIndicator := true;
      } else if tasks[image[CURRENT]].outcome != Pending {
        SetCurrentImage(image[CURRENT]);
      } else {
        busyIndicator := true;
      }
    }

    method PrefetchImage(forward: bool)
      requires Valid() && image[CURRENT] >= 0
      modifies this`tasks, image
      ensures Valid() && image[CURRENT] >= 0 && State() == Prefetch(old(State()), forward)
    {
      hide Url;
      var nextPath := if forward then imageFiles.next else imageFiles.prev;
      if nextPath >= 0 {
        image[if forward then NEXT else PREV] := Execute(imageFiles.theFiles[nextPath]);
      }
    }

    /** Gives up the slot behind, or lets it take the current task; the task ahead becomes current. */
    method RotateSlots(nextImage: nat, prevImage: nat)
      requires Valid() && image[CURRENT] >= 0 && {nextImage, prevImage} == {NEXT, PREV}
      modifies this`tasks, image
      ensures Valid() && image[CURRENT] == old(image[nextImage]) && image[nextImage] == -1
      ensures image[prevImage] == if savePrevious then old(image[CURRENT]) else -1
      ensures tasks == var cancelled := CancelTask(old(tasks), old(image[prevImage]));
        if savePrevious then cancelled else CancelTask(cancelled, old(image[CURRENT]))
    {
      if image[prevImage] >= 0 {
        Cancel(image[prevImage]);
        image[prevImage] := -1;
      }
      if savePrevious {
        image[prevImage] := image[CURRENT];
      } else {
        Cancel(image[CURRENT]);
      }
      image[CURRENT] := image[nextImage];
      image[nextImage] := -1;
    }

    /** The event thread learns that a task is over: `succeeded` or `failed`. */
    method Told(id: nat)
      requires Valid() && image[CURRENT] >= 0 && Enabled(State(), Tell(id))
      modifies this`tasks, this`displays, this`busyIndicator
      ensures Valid() && State() == Next(old(State()), Tell(id))
    {
      var ok := tasks[id].outcome == Succeeded;
      tasks := tasks[id := tasks[id].(running := false, told := true)];
      if ok && image[CURRENT] == id {
        SetCurrentImage(id);
      }
    }
  }
}
