/**
 * The lifecycle controller as the source runs it: each exported function is
 * a method on the OS state, which it changes in place. `EnumWindows` walks
 * the window table and calls back for each window; every other OS call is
 * reduced to its effect on the state and an entry in the trace.
 */
module Lifecycle {
  import opened Prelude
  import opened OsModel

  class Os {
    /** The top-level windows, in the order `EnumWindows` visits them. */
    const windows: array<Window>
    /** Suspend count per process. */
    var suspended: multiset<Uint32>
    /** Processes whose working set was emptied. */
    var trimmed: set<Uint32>
    /** The rights `OpenProcess` grants on each process; asking for more fails. */
    const grants: map<Uint32, set<Right>>
    /** The OS calls made so far, oldest first. */
    var trace: seq<Event>

    /** The state as a value. */
    ghost function State(): OsState
      reads this, windows
    {
      OsState(windows[..], suspended, trimmed, grants, trace)
    }

    /** Every handle in the trace was opened for one call and closed after it. */
    ghost predicate Valid()
      reads this
    {
      HandlesScoped(trace)
    }

    constructor (table: seq<Window>, granted: map<Uint32, set<Right>>)
      ensures Valid() && fresh(windows)
      ensures State() == OsState(table, multiset{}, {}, granted, [])
    {
      windows := new Window[|table|](k requires 0 <= k < |table| => table[k]);
      suspended, trimmed, grants, trace := multiset{}, {}, granted, [];
      new;
      assert windows[..] == table;
    }

    /**
     * The `enum_window` callback of `hide_window` and `show_window`: looks up
     * the window's owner and, if it is the pid carried in `lprm`, hides or
     * shows the window. It always asks the enumeration to go on.
     */
    method EnumWindowCallback(k: nat, lprm: int, cmd: ShowCmd) returns (cont: bool)
      requires k < windows.Length
      modifies windows
      ensures cont
      ensures windows[k] == ApplyToWindow(old(windows[k]), TruncateToU32(lprm), cmd)
      ensures forall j :: 0 <= j < windows.Length && j != k ==> windows[j] == old(windows[j])
    {
      var targetPid := windows[k].owner;
      if targetPid == TruncateToU32(lprm) {
        windows[k] := windows[k].(visible := cmd == SwShow);
      }
      cont := true;
    }

    /**
     * `EnumWindows`: calls the callback on each window in turn until one
     * call answers false; succeeds only if none did. With the callback
     * above it visits every window.
     */
    method EnumWindows(lprm: int, cmd: ShowCmd) returns (ok: bool)
      modifies windows
      ensures ok
      ensures windows[..] == ApplyToWindows(old(windows[..]), TruncateToU32(lprm), cmd)
    {
      var visited := 0;
      ok := true;
      while ok && visited < windows.Length
        invariant visited <= windows.Length
        invariant ok
        invariant forall j :: 0 <= j < visited ==> windows[j] == ApplyToWindow(old(windows[j]), TruncateToU32(lprm), cmd)
        invariant forall j :: visited <= j < windows.Length ==> windows[j] == old(windows[j])
      {
        ok := EnumWindowCallback(visited, lprm, cmd);
        visited := visited + 1;
      }
      assert windows[..] == ApplyToWindows(old(windows[..]), TruncateToU32(lprm), cmd);
    }

    /** `hide_window(pid)`: hides every window that `pid` owns. */
    method HideWindow(pid: Uint32)
      requires Valid()
      modifies this, windows
      ensures Valid()
      ensures State() == OsModel.HideWindow(old(State()), pid)
    {
      LParamRoundTrip(pid, TargetWidth);
      var ok := EnumWindows(LParamOf(pid, TargetWidth), SwHide);
      assert ok;  // so the `unwrap` never panics
      trace := trace + [WindowsEnumerated(pid, SwHide)];
      HandlesScopedAppend(old(trace), [WindowsEnumerated(pid, SwHide)]);
    }

    /** `show_window(pid)`: shows every window that `pid` owns. */
    method ShowWindow(pid: Uint32)
      requires Valid()
      modifies this, windows
      ensures Valid()
      ensures State() == OsModel.ShowWindow(old(State()), pid)
    {
      LParamRoundTrip(pid, TargetWidth);
      var ok := EnumWindows(LParamOf(pid, TargetWidth), SwShow);
      assert ok;
      trace := trace + [WindowsEnumerated(pid, SwShow)];
      HandlesScopedAppend(old(trace), [WindowsEnumerated(pid, SwShow)]);
    }

    /**
     * One handle-using primitive: `OpenProcess` with the rights `e` needs
     * (`ok` is false when the process does not grant them, where the source's
     * `unwrap` panics), then the call itself, then `CloseHandle`.
     */
    method CallWithHandle(e: Event) returns (ok: bool)
      requires Valid() && UsesHandle(e)
      modifies this
      ensures Valid()
      ensures ok == Grants(grants, e.pid, RightsFor(e))
      ensures suspended == old(suspended) && trimmed == old(trimmed)
      ensures trace == old(trace) + if ok then HandleCall(e) else [OpenRefused(e.pid, RightsFor(e))]
    {
      ok := Grants(grants, e.pid, RightsFor(e));
      if !ok {
        var refusal := [OpenRefused(e.pid, RightsFor(e))];
        trace := trace + refusal;
        assert HandlesScoped(refusal) by { assert refusal[1..] == []; }
        HandlesScopedAppend(old(trace), refusal);
        return;
      }
      trace := trace + HandleCall(e);
      assert HandlesScoped(HandleCall(e)) by { assert HandleCall(e)[3..] == []; }
      HandlesScopedAppend(old(trace), HandleCall(e));
    }

    /** `clean_working_set(pid)`: empties the working set of `pid`. */
    method CleanWorkingSet(pid: Uint32) returns (ok: bool)
      requires Valid()
      modifies this
      ensures Valid()
      ensures ok == Grants(grants, pid, TrimRights)
      ensures State() == if ok then OsModel.CleanWorkingSet(old(State()), pid)
                         else Refused(old(State()), WorkingSetEmptied(pid))
    {
      ok := CallWithHandle(WorkingSetEmptied(pid));
      if ok {
        trimmed := trimmed + {pid};
      }
    }

    /** `suspend_process(pid)`: `NtSuspendProcess` on a handle to `pid`. */
    method SuspendProcess(pid: Uint32) returns (ok: bool)
      requires Valid()
      modifies this
      ensures Valid()
      ensures ok == Grants(grants, pid, SuspendRights)
      ensures State() == if ok then OsModel.SuspendProcess(old(State()), pid)
                         else Refused(old(State()), ProcessSuspended(pid))
    {
      ok := CallWithHandle(ProcessSuspended(pid));
      if ok {
        suspended := suspended + multiset{pid};
      }
    }

    /** `resume_process(pid)`: `NtResumeProcess` on a handle to `pid`. */
    method ResumeProcess(pid: Uint32) returns (ok: bool)
      requires Valid()
      modifies this
      ensures Valid()
      ensures ok == Grants(grants, pid, SuspendRights)
      ensures State() == if ok then OsModel.ResumeProcess(old(State()), pid)
                         else Refused(old(State()), ProcessResumed(pid))
    {
      ok := CallWithHandle(ProcessResumed(pid));
      if ok {
        suspended := suspended - multiset{pid};
      }
    }

    /**
     * `suspend_minecraft(pid)`: hide the windows, empty the working set,
     * suspend. `ok` is false when a step panicked; the steps after it do not run.
     */
    method SuspendMinecraft(pid: Uint32) returns (ok: bool)
      requires Valid()
      modifies this, windows
      ensures Valid()
      ensures ok == (Grants(grants, pid, TrimRights) && Grants(grants, pid, SuspendRights))
      ensures State() == OsModel.SuspendMinecraft(old(State()), pid)
    {
      HideWindow(pid);
      ok := CleanWorkingSet(pid);
      if !ok {
        return;
      }
      ok := SuspendProcess(pid);
    }

    /**
     * `resume_minecraft(pid)`: resume, then show the windows. `ok` is false
     * when the open for resuming was refused, and then the windows stay as they were.
     */
    method ResumeMinecraft(pid: Uint32) returns (ok: bool)
      requires Valid()
      modifies this, windows
      ensures Valid()
      ensures ok == Grants(grants, pid, SuspendRights)
      ensures State() == OsModel.ResumeMinecraft(old(State()), pid)
    {
      ok := ResumeProcess(pid);
      if !ok {
        return;
      }
      ShowWindow(pid);
    }
  }
}
