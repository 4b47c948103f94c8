/** The kernel's process table, updated in place, against its specification `Procs`. */
module ProcessTable {
  import opened Processes

  class Table {
    const processNum: array<int>
    const currTask: array<int>
    const parentPid: array<int>
    var mainProcess: int
    var activeTerminal: int

    ghost predicate Shaped()
      reads this
    {
      && processNum.Length == parentPid.Length == 6 && currTask.Length == 3
      && processNum != currTask && currTask != parentPid && processNum != parentPid
      && 0 <= activeTerminal < 3
    }

    ghost predicate Valid()
      reads this, processNum, currTask, parentPid
    {
      Shaped() && Abs().Basic()
    }

    ghost function Abs(): Procs
      reads this, processNum, currTask, parentPid
    {
      Procs(processNum[..], mainProcess, activeTerminal, currTask[..], parentPid[..])
    }

    /** Everything free, as the static initialisers and `init_terminals` leave it. */
    constructor ()
      ensures Valid() && Abs() == Initial(6)
      ensures fresh(processNum) && fresh(currTask) && fresh(parentPid)
    {
      processNum := new int[6](i => FREE);
      currTask := new int[3](i => NOBODY);
      parentPid := new int[6](i => 0);
      mainProcess, activeTerminal := 0, 0;
      new;
      assert processNum[..] == Initial(6).owner;
      assert currTask[..] == Initial(6).curr;
      assert parentPid[..] == Initial(6).parent;
    }

    method FindParentProcess(idx: int, terminal: int) returns (r: int)
      requires 0 <= idx <= processNum.Length
      ensures r == if idx < 3 then -1 else GreatestBelow(processNum[..], idx, terminal)
    {
      if idx < 3 { return -1; }
      var i := idx - 1;
      while i >= 0
        invariant -1 <= i < idx
        invariant GreatestBelow(processNum[..], idx, terminal) == GreatestBelow(processNum[..], i + 1, terminal)
      {
        if processNum[i] == terminal { return i; }
        i := i - 1;
      }
      return -1;
    }

    /** The slot search of `system_execute`; marks the slot it finds as the displayed terminal's. */
    method TakeSlot() returns (slot: int)
      requires Shaped()
      modifies processNum
      ensures slot == Pick(old(Abs()))
      ensures processNum[..] == if slot == 6 then old(processNum[..]) else old(processNum[..])[slot := activeTerminal]
    {
      slot := 0;
      while slot < 6
        invariant 0 <= slot <= 6
        invariant processNum[..] == old(processNum[..])
        invariant Pick(old(Abs())) == PickFrom(old(processNum[..]), activeTerminal, slot)
      {
        if processNum[slot] == FREE {
          if slot < 3 && slot == activeTerminal {
            processNum[slot] := activeTerminal;
            return;
          } else if 3 <= slot < 6 {
            processNum[slot] := activeTerminal;
            return;
          }
        }
        slot := slot + 1;
      }
    }

    /** Records the parent of a new process and puts it in front of the displayed terminal. */
    method CreatePcb(idx: int)
      requires Shaped() && 0 <= idx < 6
      modifies parentPid, currTask
      ensures parentPid[..] ==
              old(parentPid[..])[idx := if idx < 3 then idx else GreatestBelow(processNum[..], idx, activeTerminal)]
      ensures currTask[..] == old(currTask[..])[activeTerminal := idx]
    {
      var parent;
      if idx < 3 {
        parent := idx;
      } else {
        parent := FindParentProcess(idx, activeTerminal);
      }
      parentPid[idx] := parent;
      currTask[activeTerminal] := idx;
    }

    /** The process side of `system_execute`; the slot is 6 if there is none. */
    method Execute() returns (slot: int)
      requires Shaped()
      modifies this`mainProcess, processNum, currTask, parentPid
      ensures Shaped() && Abs() == Processes.Execute(old(Abs())) && slot == Pick(old(Abs()))
    {
      slot := TakeSlot();
      if slot == 6 { return; }
      CreatePcb(slot);
      mainProcess := slot;
    }

    /** Every terminal with process `pid` in front falls back to `parent`. */
    method FallBack(pid: int, parent: int)
      requires currTask.Length == 3
      modifies currTask
      ensures currTask[..] == seq(3, t requires 0 <= t < 3 => if old(currTask[t]) == pid then parent else old(currTask[t]))
    {
      var i := 0;
      while i < 3
        invariant 0 <= i <= 3
        invariant forall t :: 0 <= t < 3 ==>
                    currTask[t] == if t < i && old(currTask[t]) == pid then parent else old(currTask[t])
      {
        if currTask[i] == pid { currTask[i] := parent; }
        i := i + 1;
      }
    }

    /** The process side of `system_halt`: frees the slot, then goes to the parent or starts the shell again. */
    method Halt()
      requires Valid()
      modifies this`mainProcess, processNum, currTask, parentPid
      ensures Shaped() && Abs() == Processes.Halt(old(Abs()))
      ensures Allowed(old(Abs()), Exit) ==> Valid()
    {
      if Allowed(Abs(), Exit) { HaltBasic(Abs()); }
      var pid := mainProcess;
      var parent := parentPid[pid];
      FallBack(pid, parent);
      processNum[pid] := FREE;
      assert Abs() == Release(old(Abs()));
      if pid < 3 {
        var slot := Execute();
        if slot < 6 { return; }
      }
      mainProcess := parent;
    }

    /** The loop of `check_tasks`, which steps both its counter and its base. */
    method CheckTasks(pid: int) returns (next: int)
      requires Valid() && pid == mainProcess
      ensures next == NextTask(Abs())
    {
      var num := processNum[pid];
      ghost var t := num;
      var i := 1;
      while i < 4
        invariant 1 <= i <= 4 && num == t + i - 1
        invariant 1 < i ==> !Eligible(Abs(), (t + 1) % 3)
        invariant 2 < i ==> !Eligible(Abs(), (t + 3) % 3)
        invariant 3 < i ==> !Eligible(Abs(), (t + 5) % 3)
      {
        var terminal := (num + i) % 3;
        if currTask[terminal] != mainProcess && currTask[terminal] != NOBODY {
          return currTask[terminal];
        }
        num := num + 1;
        i := i + 1;
      }
      return -1;
    }

    /** The process side of `scheduler_handler`. */
    method SwitchTask() returns (next: int)
      requires Valid()
      modifies this`mainProcess
      ensures next == NextTask(old(Abs())) && Abs() == Tick(old(Abs()))
      ensures Valid()
    {
      next := CheckTasks(mainProcess);
      if next != -1 {
        mainProcess := next;
      }
    }

    method SetActive(terminal: int)
      requires Valid() && 0 <= terminal < 3
      modifies this`activeTerminal
      ensures Valid() && Abs() == old(Abs()).(active := terminal)
    {
      activeTerminal := terminal;
    }
  }
}
