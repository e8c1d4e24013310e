// Processes that share a stored document: a lock file, a temporary file, and a rename that replaces the document.
// Each step is one atomic file operation of one process, taken in any order; a process may stop between any two.
// Saving looks at the result of opening, closing and renaming only, so that a write may fail without being noticed.
module StorageProtocol {
  import opened JsonValues
  import opened JsonTexts
  import opened JsonGrammar
  import opened JsonRoundTrip

  datatype File = Absent | Holds(text: string)

  // where a process stands: Dead remembers whether it had the lock
  // in `whole` the model remembers whether every write has reached the file
  datatype Phase = Free | Loading | Dropping | Held | Writing(left: string, whole: bool) | Written(whole: bool)
      | Closing
                 | Dead(locked: bool)

  datatype Process = Process(phase: Phase, root: Json)

  datatype Saved = Saved(root: Json, whole: bool)

  // saved is the history of the documents that were renamed into place
  datatype State = State(main: File, temp: File, lock: bool, processes: seq<Process>, saved: seq<Saved>)

  // ok tells whether the system call succeeds; Lose is a write of n characters that fails unnoticed
  datatype Action = TryCreate(ok: bool) | TryOpen(ok: bool) | Load(ok: bool) | Edit(root: Json) | OpenTemp(ok: bool)
                  | Write(n: nat) | Lose(n: nat) | CloseTemp(ok: bool) | Rename(ok: bool) | Clear | Unlock(ok: bool)
                      | Crash

  datatype Step = Step(who: nat, action: Action)

  // the lock file is there because of this process
  predicate Owns(phase: Phase)
  {
    !phase.Free? && (phase.Dead? ==> phase.locked)
  }

  function Moved(s: State, who: nat, phase: Phase, root: Json): State
    requires who < |s.processes|
  {
    s.(processes := s.processes[who := Process(phase, root)])
  }

  // what Load leaves of the text it read: up to the first NUL
  function Loaded(main: File, ok: bool): Outcome<Json>
  {
    if main.Holds? && ok then Document(Cut(main.text)) else Fail("", "", "")
  }

  // A step that its process cannot take leaves everything as it is.
  function Next(style: Style, s: State, step: Step): State
  {
    if step.who >= |s.processes| then s
    else
      var p := s.processes[step.who];
      match (step.action, p.phase)
      case (TryCreate(ok), Free) => if s.lock || !ok then s else Moved(s.(lock := true), step.who, Held, Null)
      case (TryOpen(ok), Free) => if s.lock || !ok then s else Moved(s.(lock := true), step.who, Loading, p.root)
      case (Load(ok), Loading) =>
        var o := Loaded(s.main, ok);
        if o.Got? then Moved(s, step.who, Held, o.value) else Moved(s, step.who, Dropping, Null)
      case (Edit(root), Free) => Moved(s, step.who, Free, root)
      case (Edit(root), Held) => Moved(s, step.who, Held, root)
      case (OpenTemp(ok), Held) =>
        if ok then Moved(s.(temp := Holds("")), step.who, Writing(Text(p.root, style, 0), true), p.root) else s
      case (Write(n), Writing(left, whole)) =>
        if s.temp.Absent? || n > |left| then s
        else Moved(s.(temp := Holds(s.temp.text + left[..n])), step.who, Writing(left[n..], whole), p.root)
      case (Lose(n), Writing(left, whole)) =>
        if n == 0 || n > |left| then s else Moved(s, step.who, Writing(left[n..], false), p.root)
      case (CloseTemp(ok), Writing(left, whole)) =>
        if s.temp.Absent? then s
        else if ok then Moved(s.(temp := Holds(s.temp.text + left)), step.who, Written(whole), p.root)
        else Moved(s, step.who, Held, p.root)
      case (Rename(ok), Written(whole)) =>
        var saved := s.saved + [Saved(p.root, whole)];
        if ok then Moved(s.(main := s.temp, temp := Absent, saved := saved), step.who, Held, p.root)
        else Moved(s, step.who, Held, p.root)
      case (Clear, Held) => Moved(s, step.who, Closing, Null)
      case (Unlock(ok),
          Closing) => if ok then Moved(s.(lock := false), step.who, Free, p.root) else Moved(s, step.who, Held, p.root)
      case (Unlock(ok),
          Dropping) => if ok then Moved(s.(lock := false), step.who, Free, p.root) else Moved(s, step.who, Held, p.root)
      case (Crash, _) => if p.phase.Dead? then s else Moved(s, step.who, Dead(Owns(p.phase)), p.root)
      case _ => s
  }

  function Run(style: Style, s: State, steps: seq<Step>): State
    decreases |steps|
  {
    if steps == [] then s else Run(style, Next(style, s, steps[0]), steps[1..])
  }

  // nobody has the lock; the document may be there from before, and so may a temporary file
  ghost predicate Start(s: State)
  {
    !s.lock && s.saved == [] && forall i :: 0 <= i < |s.processes| ==> s.processes[i].phase == Free
  }

  // ---------- what every step keeps

  // the text of root, or less of it when a write was lost
  ghost predicate Stands(style: Style, root: Json, file: File, whole: bool)
  {
    file.Holds? && if whole then file.text == Text(root, style, 0) else |file.text| < |Text(root, style, 0)|
  }

  // the document as it was first, or the last document saved
  ghost predicate MainFits(style: Style, first: File, s: State)
  {
    if s.saved == [] then s.main == first
    else var last := s.saved[|s.saved| - 1]; Stands(style, last.root, s.main, last.whole)
  }

  ghost predicate OneOwner(s: State)
  {
    && (forall i, j ::
      0 <= i < |s.processes| && 0 <= j < |s.processes| && Owns(s.processes[i].phase) && Owns(s.processes[j].phase) ==>
      i == j)
    && (s.lock <==> exists i :: 0 <= i < |s.processes| && Owns(s.processes[i].phase))
  }

  // what the temporary file holds while a process writes it
  ghost predicate TempFits(style: Style, s: State, p: Process)
  {
    match p.phase
    case Writing(left, whole) => s.temp.Holds? && Stands(style, p.root, Holds(s.temp.text + left), whole)
    case Written(whole) => Stands(style, p.root, s.temp, whole)
    case _ => true
  }

  ghost predicate Inv(style: Style, first: File, s: State)
  {
    && OneOwner(s)
    && (forall i :: 0 <= i < |s.processes| ==> TempFits(style, s, s.processes[i]))
    && MainFits(style, first, s)
  }

  // how one step changes the ownership of the lock
  lemma OwnershipStep(style: Style, s: State, step: Step)
    ensures var t := Next(style, s, step);
      && |t.processes| == |s.processes|
      && (forall i :: 0 <= i < |s.processes| && i != step.who ==> t.processes[i] == s.processes[i])
      && (step.who < |s.processes| ==>
            var before, after := Owns(s.processes[step.who].phase), Owns(t.processes[step.who].phase);
            if before == after then t.lock == s.lock else if after then !s.lock && t.lock else !t.lock)
      && (step.who >= |s.processes| ==> t == s)
  {
    hide Text, Document, Cut, Loaded;
  }

  lemma OneOwnerStep(style: Style, s: State, step: Step)
    requires OneOwner(s)
    ensures OneOwner(Next(style, s, step))
  {
    hide Next;
    OwnershipStep(style, s, step);
    var t := Next(style, s, step);
    if step.who < |s.processes| {
      assert forall i ::
          0 <= i < |s.processes| && i != step.who ==> Owns(t.processes[i].phase) == Owns(s.processes[i].phase);
      if t.lock && Owns(t.processes[step.who].phase) {
      } else if t.lock {
        var i :| 0 <= i < |s.processes| && Owns(s.processes[i].phase);
        assert Owns(t.processes[i].phase);
      }
    }
  }

  // Only the process that has the lock changes a file other than the lock.
  lemma FilesStep(style: Style, s: State, step: Step)
    ensures var t := Next(style, s, step);
      t.main != s.main || t.temp != s.temp || t.saved != s.saved ==>
        step.who < |s.processes| && Owns(s.processes[step.who].phase) && Owns(t.processes[step.who].phase)
        && !s.processes[step.who].phase.Dead?
  {
    hide Text, Document, Cut, Loaded;
  }

  lemma TempStep(style: Style, s: State, step: Step)
    requires step.who < |s.processes| && TempFits(style, s, s.processes[step.who])
    ensures TempFits(style, Next(style, s, step), Next(style, s, step).processes[step.who])
  {
    hide Text, Document, Cut, Loaded;
    var phase := s.processes[step.who].phase;
    if phase.Writing? && step.action.Write? && step.action.n <= |phase.left| {
      assert phase.left == phase.left[..step.action.n] + phase.left[step.action.n..];
      assert s.temp.text + phase.left == (s.temp.text + phase.left[..step.action.n]) + phase.left[step.action.n..];
    }
    if phase.Writing? && step.action.Lose? && step.action.n <= |phase.left| {
      assert |s.temp.text + phase.left[step.action.n..]| == |s.temp.text + phase.left| - step.action.n;
    }
    if phase.Held? && step.action.OpenTemp? {
      assert "" + Text(s.processes[step.who].root, style, 0) == Text(s.processes[step.who].root, style, 0);
    }
  }

  lemma MainStep(style: Style, first: File, s: State, step: Step)
    requires Inv(style, first, s)
    ensures MainFits(style, first, Next(style, s, step))
  {
    hide Text, Document, Cut, Loaded, OneOwner;
    assert step.who < |s.processes| ==> TempFits(style, s, s.processes[step.who]);
  }

  lemma InvStep(style: Style, first: File, s: State, step: Step)
    requires Inv(style, first, s)
    ensures Inv(style, first, Next(style, s, step))
  {
    hide Next, Text, Document, MainFits, Owns;
    var t := Next(style, s, step);
    OneOwnerStep(style, s, step);
    MainStep(style, first, s, step);
    OwnershipStep(style, s, step);
    FilesStep(style, s, step);
    forall i | 0 <= i < |t.processes| ensures TempFits(style, t, t.processes[i]) {
      if i == step.who {
        TempStep(style, s, step);
      } else if t.temp != s.temp {
        IdleFits(style, s, t, step.who, i);
      }
    }
  }

  // a process that does not own the lock writes nothing
  lemma IdleFits(style: Style, s: State, t: State, owner: nat, i: nat)
    requires OneOwner(s) && owner < |s.processes| && i < |s.processes| && i != owner && Owns(s.processes[owner].phase)
    ensures TempFits(style, t, s.processes[i])
  {
  }

  // ---------- every run

  lemma {:induction false} Safe(style: Style, first: File, s: State, steps: seq<Step>)
    requires Inv(style, first, s)
    ensures Inv(style, first, Run(style, s, steps))
    decreases |steps|
  {
    hide Next, Inv;
    if steps != [] {
      InvStep(style, first, s, steps[0]);
      Safe(style, first, Next(style, s, steps[0]), steps[1..]);
    }
  }

  lemma StartSafe(style: Style, s: State)
    requires Start(s)
    ensures Inv(style, s.main, s)
  {
  }

  // In every reachable state at most one process has the lock, and the document is the one that was there at first,
  // or the last one saved: the whole text of it exactly when no write of that saving was lost.
  lemma Reachable(style: Style, start: State, steps: seq<Step>)
    requires Start(start)
    ensures var s := Run(style, start, steps);
      && (forall i, j :: 0 <= i < j < |s.processes| ==> !Owns(s.processes[i].phase) || !Owns(s.processes[j].phase))
      && (s.saved == [] ==> s.main == start.main)
      && (s.saved != [] ==> var last := s.saved[|s.saved| - 1]; s.main == Holds(Text(last.root, style, 0)) <==>
        last.whole)
  {
    hide Next, Run, Text;
    StartSafe(style, start);
    Safe(style, start.main, start, steps);
  }

  // nothing has been lost so far
  ghost predicate AllWhole(s: State)
  {
    && (forall k :: 0 <= k < |s.saved| ==> s.saved[k].whole)
    && forall i ::
      0 <= i < |s.processes| ==>
      (s.processes[i].phase.Writing? || s.processes[i].phase.Written? ==> s.processes[i].phase.whole)
  }

  lemma WholeStep(style: Style, s: State, step: Step)
    requires AllWhole(s) && !step.action.Lose?
    ensures AllWhole(Next(style, s, step))
  {
    hide Text, Document, Cut, Loaded;
  }

  // When no write is lost, the document is whole all the time.
  lemma {:induction false} NothingLost(style: Style, s: State, steps: seq<Step>)
    requires AllWhole(s) && forall k :: 0 <= k < |steps| ==> !steps[k].action.Lose?
    ensures AllWhole(Run(style, s, steps))
    decreases |steps|
  {
    hide Next, AllWhole;
    if steps != [] {
      WholeStep(style, s, steps[0]);
      NothingLost(style, Next(style, s, steps[0]), steps[1..]);
    }
  }

  // While a process has the lock, whatever the others do, it keeps it, and they change neither file.
  lemma {:induction false} Undisturbed(style: Style, first: File, s: State, who: nat, steps: seq<Step>)
    requires Inv(style, first, s) && who < |s.processes| && Owns(s.processes[who].phase)
    requires forall k :: 0 <= k < |steps| ==> steps[k].who != who
    ensures var t := Run(style, s, steps);
      t.main == s.main && t.temp == s.temp && t.saved == s.saved && |t.processes| == |s.processes|
          && t.processes[who] == s.processes[who]
    decreases |steps|
  {
    hide Next, Text, MainFits, TempFits;
    if steps != [] {
      InvStep(style, first, s, steps[0]);
      FilesStep(style, s, steps[0]);
      OwnershipStep(style, s, steps[0]);
      Undisturbed(style, first, Next(style, s, steps[0]), who, steps[1..]);
    }
  }

  // Opening gives back the document that was saved last without a loss, just when that document is clean.
  lemma OpenReadsLast(style: Style, start: State, steps: seq<Step>, who: nat)
    requires Start(start) && style.indented
    requires var s := Run(style, start, steps);
      && who < |s.processes| && s.processes[who].phase == Loading
      && s.saved != [] && s.saved[|s.saved| - 1].whole && Writable(s.saved[|s.saved| - 1].root, style.image)
    ensures var s := Run(style, start, steps);
      var last := s.saved[|s.saved| - 1].root;
      var p := Next(style, s, Step(who, Load(true))).processes[who];
      p == Process(Held, Normal(last)) && (p.root == last <==> Clean(last))
  {
    hide Run, Text, Document, Cut, Normal, Writable, Clean, TempFits, OneOwner;
    var s := Run(style, start, steps);
    var last := s.saved[|s.saved| - 1].root;
    StartSafe(style, start);
    Safe(style, start.main, start, steps);
    PrintedReadsBack(last, style);
  }

  lemma PrintedReadsBack(v: Json, style: Style)
    requires Writable(v, style.image)
    ensures Document(Cut(Text(v, style, 0))) == Got(Normal(v), "")
    ensures Normal(v) == v <==> Clean(v)
  {
    hide *;
    TextNulFree(v, style, 0);
    CutWhole(Text(v, style, 0));
    BlankNone("");
    ParsePrinted(v, style, 0, "", "");
    assert "" + Text(v, style, 0) + "" == Text(v, style, 0);
    WritableFits(v, style.image);
    SurvivesIff(v);
  }

  lemma BlankNone(s: string)
    requires s == ""
    ensures Blank(s)
  {
  }

  // A process that stops with the lock leaves the lock file behind: from then on nobody can open the document,
  // and it stays as it is.
  lemma {:induction false} StaleLock(style: Style, first: File, s: State, who: nat, steps: seq<Step>)
    requires Inv(style, first, s) && who < |s.processes| && s.processes[who].phase == Dead(true)
    ensures var t := Run(style, s, steps);
      t.main == s.main && t.lock && |t.processes| == |s.processes|
      && forall i :: 0 <= i < |t.processes| && i != who ==> !Owns(t.processes[i].phase)
    decreases |steps|
  {
    hide Next, Text, MainFits, TempFits;
    if steps == [] {
      assert Owns(s.processes[who].phase);
    } else {
      InvStep(style, first, s, steps[0]);
      FilesStep(style, s, steps[0]);
      OwnershipStep(style, s, steps[0]);
      DeadStays(style, s, steps[0], who);
      StaleLock(style, first, Next(style, s, steps[0]), who, steps[1..]);
    }
  }

  lemma DeadStays(style: Style, s: State, step: Step, who: nat)
    requires who < |s.processes| && s.processes[who].phase.Dead?
    ensures Next(style, s, step).processes[who] == s.processes[who]
  {
    hide Text, Document, Cut, Loaded;
  }

  // A process can get the lock exactly when no process, living or stopped, has it.
  lemma LockIff(style: Style, first: File, s: State, who: nat)
    requires Inv(style, first, s) && who < |s.processes| && s.processes[who].phase == Free
    ensures Owns(Next(style, s, Step(who, TryOpen(true))).processes[who].phase)
      <==> forall i :: 0 <= i < |s.processes| ==> !Owns(s.processes[i].phase)
  {
    hide Text, Document, TempFits;
  }

  // A process may stop anywhere. It leaves all files as they are, the lock file too, and does nothing any more.
  lemma {:induction false} Stopped(style: Style, s: State, who: nat, steps: seq<Step>)
    requires who < |s.processes| && !s.processes[who].phase.Dead?
    requires forall k :: 0 <= k < |steps| ==> steps[k].who == who
    ensures var p := s.processes[who];
      Run(style, s, [Step(who, Crash)] + steps)
      == s.(processes := s.processes[who := Process(Dead(Owns(p.phase)), p.root)])
  {
    var t := Next(style, s, Step(who, Crash));
    assert ([Step(who, Crash)] + steps)[1..] == steps;
    hide Next;
    DeadIdle(style, t, who, steps);
  }

  lemma {:induction false} DeadIdle(style: Style, s: State, who: nat, steps: seq<Step>)
    requires who < |s.processes| && s.processes[who].phase.Dead?
    requires forall k :: 0 <= k < |steps| ==> steps[k].who == who
    ensures Run(style, s, steps) == s
    decreases |steps|
  {
    if steps != [] {
      DeadStep(style, s, steps[0]);
      hide Next;
      DeadIdle(style, s, who, steps[1..]);
    }
  }

  lemma DeadStep(style: Style, s: State, step: Step)
    requires step.who < |s.processes| && s.processes[step.who].phase.Dead?
    ensures Next(style, s, step) == s
  {
    hide Text, Document, Cut, Loaded;
  }

  // From every state in which a process has the lock and is not saving, it can change the document and save it,
  // whatever all other processes have done before.
  lemma SavesEdited(style: Style, s: State, who: nat, v: Json)
    requires who < |s.processes| && s.processes[who].phase == Held
    ensures Run(style, s, [Step(who, Edit(v)), Step(who, OpenTemp(true)), Step(who, CloseTemp(true)),
      Step(who, Rename(true))])
      == s.(main := Holds(Text(v, style, 0)), temp := Absent, saved := s.saved + [Saved(v, true)],
            processes := s.processes[who := Process(Held, v)])
  {
    var a, b, c, d := Step(who, Edit(v)), Step(who, OpenTemp(true)), Step(who, CloseTemp(true)),
        Step(who, Rename(true));
    hide Text;
    var s1 := Next(style, s, a);
    var s2 := Next(style, s1, b);
    var s3 := Next(style, s2, c);
    var s4 := Next(style, s3, d);
    var text := Text(v, style, 0);
    assert "" + text == text;
    assert s1.processes == s.processes[who := Process(Held, v)];
    assert s2.processes == s.processes[who := Process(Writing(text, true), v)];
    assert s3.processes == s.processes[who := Process(Written(true), v)];
    assert s4.processes == s.processes[who := Process(Held, v)];
    hide Next;
    FourSteps(style, s, a, b, c, d);
  }

  lemma FourSteps(style: Style, s: State, a: Step, b: Step, c: Step, d: Step)
    ensures Run(style, s, [a, b, c, d]) == Next(style, Next(style, Next(style, Next(style, s, a), b), c), d)
  {
    hide Next;
    var t := Next(style, s, a);
    var u := Next(style, t, b);
    var w := Next(style, u, c);
    assert [a, b, c, d][1..] == [b, c, d] && [b, c, d][1..] == [c, d] && [c, d][1..] == [d];
    assert Run(style, w, [d]) == Run(style, Next(style, w, d), []);
    assert Run(style, u, [c, d]) == Run(style, w, [d]);
    assert Run(style, t, [b, c, d]) == Run(style, u, [c, d]);
  }
}
