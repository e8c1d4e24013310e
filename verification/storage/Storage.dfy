// The storage as one process runs it. Each operation is shown to be a run of the protocol's steps.
module Storage {
  import opened JsonValues
  import opened JsonTexts
  import opened JsonGrammar
  import opened JsonRoundTrip
  import opened JsonPrinting
  import JsonErrors
  import JsonParsing
  import opened StorageProtocol

  // the three files, and the history of what was renamed into place
  class Disk {
    var main: File
    var temp: File
    var lock: bool
    ghost var saved: seq<Saved>

    constructor (main: File, temp: File)
      ensures this.main == main && this.temp == temp && !lock && saved == []
    {
      this.main, this.temp, lock, saved := main, temp, false, [];
    }
  }

  // Raised stands for an exception
  datatype Tried = Yes | No | Raised

  class FileLock {
    const disk: Disk
    var locked: bool

    constructor (disk: Disk)
      ensures this.disk == disk && !locked
    {
      this.disk := disk;
      locked := false;
    }

    // open with O_CREAT | O_EXCL; ok tells whether it fails for no other reason than an existing file
    method TryLock(ok: bool) returns (r: Tried)
      modifies this, disk`lock
      ensures r == (if !ok then Raised else if old(disk.lock) then No else Yes)
      ensures disk.lock == (old(disk.lock) || ok) && locked == (old(locked) || r == Yes)
    {
      if !ok {
        return Raised;
      }
      if disk.lock {
        return No;
      }
      disk.lock := true;
      locked := true;
      r := Yes;
    }

    // ok tells whether unlink works on a lock file that is there; a missing one gives the lock up all the same
    method Unlock(ok: bool) returns (r: Tried)
      modifies this, disk`lock
      ensures r == (if !old(disk.lock) then No else if ok then Yes else Raised)
      ensures if r == Raised then disk.lock && locked == old(locked) else !disk.lock && !locked
    {
      if disk.lock {
        if !ok {
          return Raised;
        }
        disk.lock := false;
        locked := false;
        r := Yes;
      } else {
        locked := false;
        r := No;
      }
    }
  }

  // LockFailed is the exception of the lock, Broken that of the file or of the parser
  datatype Answer = Ready | Missing | TakenAlready | Broken | LockFailed

  class JsonFile {
    const disk: Disk
    var root: Json

    constructor (disk: Disk)
      ensures this.disk == disk && root == Null
    {
      this.disk := disk;
      root := Null;
    }

    method Clear()
      modifies this
      ensures root == Null
    {
      root := Null;
    }

    // ok tells whether the file can be read
    method Load(ok: bool) returns (r: Answer)
      modifies this
      ensures var o := Loaded(disk.main, ok);
        root == (if o.Got? then o.value else Null) && (r == Ready <==> o.Got?) && (r == Missing <==> disk.main.Absent?)
            && r != TakenAlready && r != LockFailed
    {
      hide *;
      LoadedParts(disk.main, ok);
      Clear();
      match disk.main
      case Absent => r := Missing;
      case Holds(text) =>
        if !ok {
          return Broken;
        }
        NulAtEnd(text);
        var parsed := JsonErrors.ParseText(text + ['\0']);
        match parsed
        case Ok(v) => root := v; r := Ready;
        case Error(_, _, _) => r := Broken;
    }

    // Writes the temporary file and renames it. The first n characters reach the file, the next `lost` ones do not, and
    // closing writes the rest or fails. Nobody looks at the writes themselves.
    method Save(style: Style, openOk: bool, n: nat, lost: nat, closeOk: bool, renameOk: bool) returns (r: bool)
      requires style.indented && n + lost <= |Text(root, style, 0)|
      modifies disk`main, disk`temp, disk`saved
      ensures var text := Text(root, style, 0); var written := text[..n] + text[n + lost..];
        && r == (openOk && closeOk && renameOk)
        && disk.temp == (if !openOk then old(disk.temp) else if !closeOk then Holds(text[..n])
                         else if !renameOk then Holds(written) else Absent)
        && disk.main == (if r then Holds(written) else old(disk.main))
        && (written == text <==> lost == 0)
        && disk.saved == (if r then old(disk.saved) + [Saved(root, lost == 0)] else old(disk.saved))
    {
      hide *;
      ghost var text := Text(root, style, 0);
      assert |text[..n] + text[n + lost..]| == |text| - lost && text[..n] + text[n..] == text;
      if !openOk {
        return false;
      }
      disk.temp := Holds("");
      var stream := new Stream();
      Print(root, stream, style, 0, false);
      assert stream.text == text;
      if !closeOk {
        disk.temp := Holds(stream.text[..n]);
        return false;
      }
      disk.temp := Holds(stream.text[..n] + stream.text[n + lost..]);
      if !renameOk {
        return false;
      }
      disk.main, disk.temp := disk.temp, Absent;
      disk.saved := disk.saved + [Saved(root, lost == 0)];
      r := true;
    }
  }

  lemma LoadedParts(main: File, ok: bool)
    ensures Loaded(main, ok) == if main.Holds? && ok then Document(Cut(main.text)) else Fail("", "", "")
  {
  }

  lemma NulAtEnd(text: string)
    ensures '\0' in text + ['\0'] && Cut(text + ['\0']) == Cut(text)
  {
    assert (text + ['\0'])[|text|] == '\0';
    if |Cut(text)| < |text| {
      CutPrefix(text + ['\0'], |Cut(text)|);
    } else {
      CutPrefix(text + ['\0'], |text|);
    }
    assert (text + ['\0'])[..|Cut(text)|] == text[..|Cut(text)|];
  }

  class JsonStorage {
    const disk: Disk
    const file: JsonFile
    const lock: FileLock
    const style: Style

    constructor (disk: Disk, style: Style)
      requires style.indented
      ensures Valid() && fresh(file) && fresh(lock) && this.disk == disk && this.style == style
      ensures !lock.locked && file.root == Null
    {
      this.disk := disk;
      this.style := style;
      file := new JsonFile(disk);
      lock := new FileLock(disk);
    }

    ghost predicate Valid()
      reads disk, lock
    {
      lock.disk == disk && file.disk == disk && style.indented && (lock.locked ==> disk.lock)
    }

    // what the protocol sees of this process
    ghost function View(): State
      reads disk, lock, file
    {
      State(disk.main, disk.temp, disk.lock, [Process(if lock.locked then Held else Free, file.root)], disk.saved)
    }

    method Create(lockOk: bool) returns (r: Answer)
      requires Valid()
      modifies file, lock, disk`lock
      ensures Valid() && r == (if !lockOk then LockFailed else if old(disk.lock) then TakenAlready else Ready)
      ensures View() == Run(style, old(View()), [Step(0, TryCreate(lockOk))])
    {
      OneStep(style, View(), Step(0, TryCreate(lockOk)));
      var tried := lock.TryLock(lockOk);
      match tried
      case Raised => r := LockFailed;
      case No => r := TakenAlready;
      case Yes =>
        file.Clear();
        r := Ready;
    }

    // When nothing can be loaded the lock is given back at once.
    method Open(lockOk: bool, readOk: bool, unlockOk: bool) returns (r: Answer)
      requires Valid()
      modifies file, lock, disk`lock
      ensures Valid() && (r == Ready <==> lockOk && !old(disk.lock) && Loaded(disk.main, readOk).Got?)
      ensures r == TakenAlready <==> lockOk && old(disk.lock)
      ensures r == Missing <==> lockOk && !old(disk.lock) && disk.main.Absent? && unlockOk
      ensures r == LockFailed
        <==> !lockOk || (!old(disk.lock) && !Loaded(disk.main, readOk).Got? && !unlockOk)
      ensures r == Broken
        <==> lockOk && !old(disk.lock) && disk.main.Holds? && !Loaded(disk.main, readOk).Got? && unlockOk
      ensures lock.locked <==> old(lock.locked) || (r == Ready || (r == LockFailed && lockOk))
      ensures View() == Run(style, old(View()),
        [Step(0, TryOpen(lockOk)), Step(0, Load(readOk)), Step(0, Unlock(unlockOk))])
    {
      hide Run, Loaded;
      ghost var s := View();
      ThreeSteps(style, s, Step(0, TryOpen(lockOk)), Step(0, Load(readOk)), Step(0, Unlock(unlockOk)));
      var tried := lock.TryLock(lockOk);
      if tried == Raised {
        return LockFailed;
      }
      if tried == No {
        return TakenAlready;
      }
      r := file.Load(readOk);
      if r != Ready {
        var unlocked := lock.Unlock(unlockOk);
        if unlocked == Raised {
          r := LockFailed;
        }
      }
    }

    method Flush(openOk: bool, n: nat, lost: nat, closeOk: bool, renameOk: bool) returns (r: bool)
      requires Valid() && n + lost <= |Text(file.root, style, 0)|
      modifies disk`main, disk`temp, disk`saved
      ensures Valid() && r == (lock.locked && openOk && closeOk && renameOk)
      ensures View() == Run(style, old(View()), SaveSteps(openOk, n, lost, closeOk, renameOk))
    {
      ghost var s := View();
      FlushSteps(style, s, openOk, n, lost, closeOk, renameOk);
      if lock.locked {
        r := file.Save(style, openOk, n, lost, closeOk, renameOk);
      } else {
        r := false;
      }
    }

    method Close(unlockOk: bool)
      requires Valid()
      modifies file, lock, disk`lock
      ensures Valid() && (lock.locked <==> old(lock.locked) && !unlockOk)
      ensures View() == Run(style, old(View()), [Step(0, Clear), Step(0, Unlock(unlockOk))])
    {
      ghost var s := View();
      TwoSteps(style, s, Step(0, Clear), Step(0, Unlock(unlockOk)));
      if lock.locked {
        file.Clear();
        var unlocked := lock.Unlock(unlockOk);
      }
    }
  }

  lemma OneStep(style: Style, s: State, a: Step)
    ensures Run(style, s, [a]) == Next(style, s, a)
  {
    hide Next;
    assert Run(style, s, [a]) == Run(style, Next(style, s, a), []);
  }

  lemma TwoSteps(style: Style, s: State, a: Step, b: Step)
    ensures Run(style, s, [a, b]) == Next(style, Next(style, s, a), b)
  {
    hide Next;
    OneStep(style, Next(style, s, a), b);
    assert [a, b][1..] == [b];
  }

  lemma ThreeSteps(style: Style, s: State, a: Step, b: Step, c: Step)
    ensures Run(style, s, [a, b, c]) == Next(style, Next(style, Next(style, s, a), b), c)
  {
    hide Next;
    TwoSteps(style, Next(style, s, a), b, c);
    assert [a, b, c][1..] == [b, c];
  }

  ghost function SaveSteps(openOk: bool, n: nat, lost: nat, closeOk: bool, renameOk: bool): seq<Step>
  {
    [Step(0, OpenTemp(openOk)), Step(0, Write(n)), Step(0, Lose(lost)), Step(0, CloseTemp(closeOk)),
        Step(0, Rename(renameOk))]
  }

  // what saving comes to when no other process moves in between
  lemma FlushSteps(style: Style, s: State, openOk: bool, n: nat, lost: nat, closeOk: bool, renameOk: bool)
    requires |s.processes| == 1 && (s.processes[0].phase == Free || s.processes[0].phase == Held)
    requires n + lost <= |Text(s.processes[0].root, style, 0)|
    ensures var p := s.processes[0];
      var text := Text(p.root, style, 0);
      var written := text[..n] + text[n + lost..];
      Run(style, s, SaveSteps(openOk, n, lost, closeOk, renameOk))
      == if p.phase == Free || !openOk then s
         else if !closeOk then s.(temp := Holds(text[..n]))
         else if !renameOk then s.(temp := Holds(written))
         else s.(main := Holds(written), temp := Absent, saved := s.saved + [Saved(p.root, lost == 0)])
  {
    hide Next, Text;
    var a, b, l, c, d := Step(0, OpenTemp(openOk)), Step(0, Write(n)), Step(0, Lose(lost)), Step(0, CloseTemp(closeOk)),
        Step(0, Rename(renameOk));
    var p := s.processes[0];
    var text := Text(p.root, style, 0);
    var s1 := Next(style, s, a);
    var s2 := Next(style, s1, b);
    ThreeSteps(style, s2, l, c, d);
    assert [a, b, l, c, d][1..] == [b, l, c, d] && [b, l, c, d][1..] == [l, c, d];
    assert Run(style, s, [a, b, l, c, d]) == Run(style, s1, [b, l, c, d]) == Run(style, s2, [l, c, d]);
    OpenTempStep(style, s, openOk);
    if p.phase == Free || !openOk {
      NoSave(style, s, n, lost, closeOk, renameOk);
    } else {
      WriteSteps(style, s1, text, n, lost, closeOk);
      var t := Next(style, Next(style, s2, l), c);
      if closeOk {
        RenameStep(style, t, lost == 0, renameOk);
      } else {
        NoSave(style, t, n, lost, closeOk, renameOk);
      }
    }
  }

  lemma OpenTempStep(style: Style, s: State, ok: bool)
    requires |s.processes| == 1 && (s.processes[0].phase == Free || s.processes[0].phase == Held)
    ensures var p := s.processes[0];
      Next(style, s, Step(0, OpenTemp(ok)))
      == if p.phase == Free || !ok then s
         else s.(temp := Holds(""), processes := [Process(Writing(Text(p.root, style, 0), true), p.root)])
  {
    hide Text;
  }

  lemma NoSave(style: Style, s: State, n: nat, lost: nat, closeOk: bool, renameOk: bool)
    requires |s.processes| == 1 && (s.processes[0].phase == Free || s.processes[0].phase == Held)
    ensures Next(style, s, Step(0, Write(n))) == s && Next(style, s, Step(0, Lose(lost))) == s
    ensures Next(style, s, Step(0, CloseTemp(closeOk))) == s && Next(style, s, Step(0, Rename(renameOk))) == s
  {
  }

  lemma WriteSteps(style: Style, s: State, text: string, n: nat, lost: nat, closeOk: bool)
    requires |s.processes| == 1 && s.processes[0].phase == Writing(text, true) && s.temp == Holds("")
      && n + lost <= |text|
    ensures Next(style, Next(style, Next(style, s, Step(0, Write(n))), Step(0, Lose(lost))),
      Step(0, CloseTemp(closeOk)))
         == s.(temp := Holds(if closeOk then text[..n] + text[n + lost..] else text[..n]),
               processes := [Process(if closeOk then Written(lost == 0) else Held, s.processes[0].root)])
  {
    assert "" + text[..n] == text[..n] && text[n..][lost..] == text[n + lost..];
  }

  lemma RenameStep(style: Style, s: State, whole: bool, ok: bool)
    requires |s.processes| == 1 && s.processes[0].phase == Written(whole)
    ensures var held := [Process(Held, s.processes[0].root)];
      Next(style, s, Step(0, Rename(ok)))
      == if ok then s.(main := s.temp, temp := Absent, saved := s.saved + [Saved(s.processes[0].root, whole)],
                       processes := held)
         else s.(processes := held)
  {
  }

  // what the other operations come to when they work
  lemma CreateSteps(style: Style, s: State)
    requires !s.lock && |s.processes| == 1 && s.processes[0].phase == Free
    ensures Run(style, s, [Step(0, TryCreate(true))]) == s.(lock := true, processes := [Process(Held, Null)])
  {
    OneStep(style, s, Step(0, TryCreate(true)));
  }

  lemma CloseSteps(style: Style, s: State)
    requires |s.processes| == 1 && s.processes[0].phase == Held
    ensures Run(style, s, [Step(0, Clear), Step(0, Unlock(true))])
      == s.(lock := false, processes := [Process(Free, Null)])
  {
    TwoSteps(style, s, Step(0, Clear), Step(0, Unlock(true)));
  }

  lemma OpenSteps(style: Style, s: State)
    requires !s.lock && |s.processes| == 1 && s.processes[0].phase == Free && Loaded(s.main, true).Got?
    ensures Run(style, s, [Step(0, TryOpen(true)), Step(0, Load(true)), Step(0, Unlock(true))])
         == s.(lock := true, processes := [Process(Held, Loaded(s.main, true).value)])
  {
    hide Loaded;
    ThreeSteps(style, s, Step(0, TryOpen(true)), Step(0, Load(true)), Step(0, Unlock(true)));
  }

  lemma WholeText(text: string)
    ensures text[..0] + text[0..] == text
  {
  }

  method Store(disk: Disk, style: Style, v: Json)
    requires style.indented && !disk.lock
    modifies disk
    ensures disk.main == Holds(Text(v, style, 0)) && disk.temp == Absent && !disk.lock
    ensures disk.saved == old(disk.saved) + [Saved(v, true)]
  {
    hide Next, Run, Text;
    var writer := new JsonStorage(disk, style);
    CreateSteps(style, writer.View());
    var created := writer.Create(true);
    writer.file.root := v;
    FlushSteps(style, writer.View(), true, 0, 0, true, true);
    WholeText(Text(v, style, 0));
    var saved := writer.Flush(true, 0, 0, true, true);
    CloseSteps(style, writer.View());
    writer.Close(true);
  }

  // A document that is stored and closed is opened again as it was, exactly when it is clean.
  method StoreAndReload(disk: Disk, style: Style, v: Json) returns (answer: Answer, r: Json)
    requires style.indented && Writable(v, style.image) && !disk.lock
    modifies disk
    ensures answer == Ready && r == Normal(v) && (r == v <==> Clean(v))
    ensures disk.main == Holds(Text(v, style, 0)) && disk.temp == Absent && disk.lock
  {
    hide Next, Run, Text, Clean, Normal, Writable, Document, Loaded;
    Store(disk, style, v);
    var reader := new JsonStorage(disk, style);
    PrintedReadsBack(v, style);
    LoadedParts(disk.main, true);
    OpenSteps(style, reader.View());
    answer := reader.Open(true, true, true);
    r := reader.file.root;
  }
}
