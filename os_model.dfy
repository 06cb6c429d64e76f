/**
 * The slice of Windows that the lifecycle controller acts on, as a value:
 * the top-level window table, the suspend count of every process, the
 * processes whose working set was emptied, the access rights `OpenProcess`
 * grants on each process, and the trace of OS calls made so far. Each primitive
 * and each composite of the controller is a function from state to state.
 */
module OsModel {
  import opened Prelude

  /** The two `ShowWindow` commands used: `SW_HIDE` and `SW_SHOW`. */
  datatype ShowCmd = SwHide | SwShow

  /** A top-level window: its handle, the pid of the process that created it, whether it is shown. */
  datatype Window = Window(hwnd: nat, owner: Uint32, visible: bool)

  /** Access rights asked of `OpenProcess`. */
  datatype Right = SuspendResume | SetQuota | QueryInformation

  /** One OS call made by the controller. */
  datatype Event =
    | WindowsEnumerated(pid: Uint32, cmd: ShowCmd)
    | ProcessOpened(pid: Uint32, rights: set<Right>)
    | OpenRefused(pid: Uint32, rights: set<Right>)   // `OpenProcess` failed; its `unwrap` panics
    | WorkingSetEmptied(pid: Uint32)
    | ProcessSuspended(pid: Uint32)
    | ProcessResumed(pid: Uint32)
    | HandleClosed(pid: Uint32)

  datatype OsState = OsState(
    windows: seq<Window>,         // every top-level window, in enumeration order
    suspended: multiset<Uint32>,  // how many times each process is suspended
    trimmed: set<Uint32>,         // processes whose working set was emptied
    grants: map<Uint32, set<Right>>,  // the rights `OpenProcess` grants on each process
    trace: seq<Event>)            // the calls made, oldest first

  /** The rights `clean_working_set` asks for: `PROCESS_SET_QUOTA | PROCESS_QUERY_INFORMATION`. */
  const TrimRights: set<Right> := {SetQuota, QueryInformation}

  /** The rights `suspend_process` and `resume_process` ask for: `PROCESS_SUSPEND_RESUME`. */
  const SuspendRights: set<Right> := {SuspendResume}

  /** `OpenProcess(rights, false, pid)` succeeds: the process grants every right asked for. */
  predicate Grants(grants: map<Uint32, set<Right>>, pid: Uint32, rights: set<Right>)
  {
    pid in grants && rights <= grants[pid]
  }

  // ---------------------------------------------------------------------
  // Passing a pid through `LPARAM`

  /** Width of `isize` on the target. */
  datatype PointerWidth = Bits32 | Bits64

  /**
   * The width the class in `Lifecycle` passes pids at. The library fixes no
   * target; 64 bits is an arbitrary choice, and `LParamRoundTrip` holds for both.
   */
  const TargetWidth: PointerWidth := Bits64

  /** `x` is a value of `isize` on a target of the given width. */
  predicate InIsize(x: int, width: PointerWidth)
  {
    match width
    case Bits32 => -0x8000_0000 <= x < 0x8000_0000
    case Bits64 => -0x8000_0000_0000_0000 <= x < 0x8000_0000_0000_0000
  }

  /** `LPARAM(pid as isize)`: the cast wraps in two's complement when `isize` is too narrow. */
  function LParamOf(pid: Uint32, width: PointerWidth): (x: int)
    ensures InIsize(x, width)
    ensures width == Bits64 ==> x == pid
    ensures x == pid || x == pid - 0x1_0000_0000
  {
    if InIsize(pid, width) then pid else pid - 0x1_0000_0000
  }

  /** `lprm.0 as u32`: only the low 32 bits are kept. */
  function TruncateToU32(x: int): (r: Uint32)
    ensures 0 <= x < 0x1_0000_0000 ==> r == x
    ensures (x - r) % 0x1_0000_0000 == 0
  {
    x % 0x1_0000_0000
  }

  /** The callback reads back the pid it was given, on 32- and 64-bit targets alike. */
  lemma LParamRoundTrip(pid: Uint32, width: PointerWidth)
    ensures TruncateToU32(LParamOf(pid, width)) == pid
  {
  }

  // ---------------------------------------------------------------------
  // Showing and hiding the windows of a process

  /** What the `EnumWindows` callback does to one window. */
  function ApplyToWindow(w: Window, pid: Uint32, cmd: ShowCmd): (r: Window)
    ensures r.hwnd == w.hwnd && r.owner == w.owner
    ensures w.owner == pid ==> r.visible == (cmd == SwShow)
    ensures w.owner != pid ==> r == w
  {
    if w.owner == pid then w.(visible := cmd == SwShow) else w
  }

  /** The callback applied to every window of the table, in enumeration order. */
  function ApplyToWindows(ws: seq<Window>, pid: Uint32, cmd: ShowCmd): (r: seq<Window>)
    ensures |r| == |ws|
    ensures forall k :: 0 <= k < |ws| ==> r[k] == ApplyToWindow(ws[k], pid, cmd)
  {
    if ws == [] then [] else [ApplyToWindow(ws[0], pid, cmd)] + ApplyToWindows(ws[1..], pid, cmd)
  }

  /** `pid` owns no shown window (after `hide_window`) or no hidden one (after `show_window`). */
  ghost predicate AllWindows(ws: seq<Window>, pid: Uint32, visible: bool)
  {
    forall k :: 0 <= k < |ws| && ws[k].owner == pid ==> ws[k].visible == visible
  }

  /**
   * `after` is `before` with each window of `pid` set to `visible`, and every
   * other window, handle and owner left as it was.
   */
  ghost predicate SetVisibility(before: seq<Window>, after: seq<Window>, pid: Uint32, visible: bool)
  {
    && |after| == |before|
    && forall k :: 0 <= k < |before| ==>
         after[k] == if before[k].owner == pid then before[k].(visible := visible) else before[k]
  }

  /** Setting the visibility of a pid's windows twice is setting it to the second value. */
  lemma SetVisibilityThen(a: seq<Window>, b: seq<Window>, c: seq<Window>, pid: Uint32, v1: bool, v2: bool)
    requires SetVisibility(a, b, pid, v1) && SetVisibility(b, c, pid, v2)
    ensures SetVisibility(a, c, pid, v2)
    ensures AllWindows(c, pid, v2)
  {
    forall k | 0 <= k < |a| ensures c[k] == if a[k].owner == pid then a[k].(visible := v2) else a[k] {
      assert b[k].owner == a[k].owner;
    }
  }

  /**
   * Exactly the windows owned by `pid` change, and only their visibility;
   * every other window is left as it was.
   */
  lemma ApplyToWindowsExact(ws: seq<Window>, pid: Uint32, cmd: ShowCmd)
    ensures |ApplyToWindows(ws, pid, cmd)| == |ws|
    ensures AllWindows(ApplyToWindows(ws, pid, cmd), pid, cmd == SwShow)
    ensures forall k :: 0 <= k < |ws| ==>
      && ApplyToWindows(ws, pid, cmd)[k].hwnd == ws[k].hwnd
      && ApplyToWindows(ws, pid, cmd)[k].owner == ws[k].owner
      && (ws[k].owner != pid ==> ApplyToWindows(ws, pid, cmd)[k] == ws[k])
  {
  }

  /** Hiding (or showing) twice is hiding (or showing) once. */
  lemma ApplyToWindowsIdempotent(ws: seq<Window>, pid: Uint32, cmd: ShowCmd)
    ensures ApplyToWindows(ApplyToWindows(ws, pid, cmd), pid, cmd) == ApplyToWindows(ws, pid, cmd)
  {
  }

  /** Showing the windows of a process whose windows were all shown undoes hiding them. */
  lemma ShowUndoesHide(ws: seq<Window>, pid: Uint32)
    requires AllWindows(ws, pid, true)
    ensures ApplyToWindows(ApplyToWindows(ws, pid, SwHide), pid, SwShow) == ws
  {
  }

  // ---------------------------------------------------------------------
  // Handles are opened for one call and closed right after it

  /** The calls that need a process handle. */
  predicate UsesHandle(e: Event)
  {
    e.WorkingSetEmptied? || e.ProcessSuspended? || e.ProcessResumed?
  }

  /** The rights a handle-using call asks for, and no more. */
  function RightsFor(e: Event): set<Right>
    requires UsesHandle(e)
  {
    if e.WorkingSetEmptied? then TrimRights else SuspendRights
  }

  /**
   * The trace is a run of window enumerations, refused opens and
   * open-use-close triples, in which every handle is opened with exactly the
   * rights of its single use and closed straight after it.
   */
  predicate HandlesScoped(t: seq<Event>)
    decreases |t|
  {
    if t == [] then true
    else if t[0].WindowsEnumerated? || t[0].OpenRefused? then HandlesScoped(t[1..])
    else
      && |t| >= 3
      && UsesHandle(t[1])
      && t[0] == ProcessOpened(t[1].pid, RightsFor(t[1]))
      && t[2] == HandleClosed(t[1].pid)
      && HandlesScoped(t[3..])
  }

  lemma {:induction false} HandlesScopedAppend(a: seq<Event>, b: seq<Event>)
    requires HandlesScoped(a) && HandlesScoped(b)
    ensures HandlesScoped(a + b)
  {
    if a == [] {
      assert a + b == b;
    } else if a[0].WindowsEnumerated? || a[0].OpenRefused? {
      assert (a + b)[1..] == a[1..] + b;
      HandlesScopedAppend(a[1..], b);
    } else {
      assert (a + b)[3..] == a[3..] + b;
      HandlesScopedAppend(a[3..], b);
    }
  }

  // ---------------------------------------------------------------------
  // The primitives

  /** `hide_window(pid)`: one enumeration of all windows, hiding those of `pid`. */
  function HideWindow(st: OsState, pid: Uint32): (r: OsState)
    ensures SetVisibility(st.windows, r.windows, pid, false)
    ensures r.(windows := st.windows, trace := st.trace) == st
    ensures r.trace == st.trace + [WindowsEnumerated(pid, SwHide)]
  {
    st.(windows := ApplyToWindows(st.windows, pid, SwHide),
        trace := st.trace + [WindowsEnumerated(pid, SwHide)])
  }

  /** `show_window(pid)`: one enumeration of all windows, showing those of `pid`. */
  function ShowWindow(st: OsState, pid: Uint32): (r: OsState)
    ensures SetVisibility(st.windows, r.windows, pid, true)
    ensures r.(windows := st.windows, trace := st.trace) == st
    ensures r.trace == st.trace + [WindowsEnumerated(pid, SwShow)]
  {
    st.(windows := ApplyToWindows(st.windows, pid, SwShow),
        trace := st.trace + [WindowsEnumerated(pid, SwShow)])
  }

  /** The calls a handle-using primitive makes once `OpenProcess` succeeds. */
  function HandleCall(e: Event): seq<Event>
    requires UsesHandle(e)
  {
    [ProcessOpened(e.pid, RightsFor(e)), e, HandleClosed(e.pid)]
  }

  /** `clean_working_set(pid)`, once its handle is open. */
  function CleanWorkingSet(st: OsState, pid: Uint32): (r: OsState)
    ensures pid in r.trimmed && r.trimmed - {pid} == st.trimmed - {pid}
    ensures r.(trimmed := st.trimmed, trace := st.trace) == st
    ensures r.trace == st.trace + [ProcessOpened(pid, TrimRights), WorkingSetEmptied(pid), HandleClosed(pid)]
  {
    st.(trimmed := st.trimmed + {pid}, trace := st.trace + HandleCall(WorkingSetEmptied(pid)))
  }

  /** `suspend_process(pid)`, once its handle is open: every thread's suspend count goes up by one. */
  function SuspendProcess(st: OsState, pid: Uint32): (r: OsState)
    ensures r.suspended[pid] == st.suspended[pid] + 1
    ensures forall q :: q != pid ==> r.suspended[q] == st.suspended[q]
    ensures r.(suspended := st.suspended, trace := st.trace) == st
    ensures r.trace == st.trace + [ProcessOpened(pid, SuspendRights), ProcessSuspended(pid), HandleClosed(pid)]
  {
    st.(suspended := st.suspended + multiset{pid}, trace := st.trace + HandleCall(ProcessSuspended(pid)))
  }

  /** `resume_process(pid)`, once its handle is open: the count goes down by one, never below zero. */
  function ResumeProcess(st: OsState, pid: Uint32): (r: OsState)
    ensures r.suspended[pid] == if st.suspended[pid] == 0 then 0 else st.suspended[pid] - 1
    ensures forall q :: q != pid ==> r.suspended[q] == st.suspended[q]
    ensures r.(suspended := st.suspended, trace := st.trace) == st
    ensures r.trace == st.trace + [ProcessOpened(pid, SuspendRights), ProcessResumed(pid), HandleClosed(pid)]
  {
    st.(suspended := st.suspended - multiset{pid}, trace := st.trace + HandleCall(ProcessResumed(pid)))
  }

  /**
   * A handle-using primitive whose `OpenProcess` is refused: the refusal is
   * recorded and the `unwrap` panics before the call is made.
   */
  function Refused(st: OsState, e: Event): (r: OsState)
    requires UsesHandle(e)
    ensures r.(trace := st.trace) == st
    ensures |r.trace| == |st.trace| + 1 && r.trace[..|st.trace|] == st.trace
    ensures r.trace[|st.trace|] == OpenRefused(e.pid, RightsFor(e))
  {
    st.(trace := st.trace + [OpenRefused(e.pid, RightsFor(e))])
  }

  // ---------------------------------------------------------------------
  // The composites

  /**
   * `suspend_minecraft(pid)`: hide the windows, empty the working set, suspend.
   * Each of the two opens asks for its own rights and can be refused on its
   * own; the `unwrap` then panics, and the steps already taken stay done.
   */
  function SuspendMinecraft(st: OsState, pid: Uint32): (r: OsState)
    ensures SetVisibility(st.windows, r.windows, pid, false)
    ensures r.grants == st.grants
    ensures st.trimmed <= r.trimmed <= st.trimmed + {pid}
    ensures st.trace < r.trace
  {
    var hidden := HideWindow(st, pid);
    if !Grants(st.grants, pid, TrimRights) then Refused(hidden, WorkingSetEmptied(pid))
    else
      var trimmed := CleanWorkingSet(hidden, pid);
      if !Grants(st.grants, pid, SuspendRights) then Refused(trimmed, ProcessSuspended(pid))
      else SuspendProcess(trimmed, pid)
  }

  /**
   * `resume_minecraft(pid)`: resume, then show the windows. When `OpenProcess`
   * refuses the pid, the first step panics and only the refusal is recorded.
   */
  function ResumeMinecraft(st: OsState, pid: Uint32): (r: OsState)
    ensures r.windows == st.windows || SetVisibility(st.windows, r.windows, pid, true)
    ensures r.grants == st.grants && r.trimmed == st.trimmed
    ensures st.trace < r.trace
  {
    if !Grants(st.grants, pid, SuspendRights) then Refused(st, ProcessResumed(pid))
    else ShowWindow(ResumeProcess(st, pid), pid)
  }

  /** The calls `suspend_minecraft` makes, in order, when both opens succeed. */
  function SuspendTrace(pid: Uint32): seq<Event>
  {
    [WindowsEnumerated(pid, SwHide),
     ProcessOpened(pid, TrimRights), WorkingSetEmptied(pid), HandleClosed(pid),
     ProcessOpened(pid, SuspendRights), ProcessSuspended(pid), HandleClosed(pid)]
  }

  /** The calls `suspend_minecraft` makes when the open for the working set is refused. */
  function TrimRefusedTrace(pid: Uint32): seq<Event>
  {
    [WindowsEnumerated(pid, SwHide), OpenRefused(pid, TrimRights)]
  }

  /** The calls `suspend_minecraft` makes when only the open for suspending is refused. */
  function SuspendRefusedTrace(pid: Uint32): seq<Event>
  {
    [WindowsEnumerated(pid, SwHide)] + HandleCall(WorkingSetEmptied(pid)) + [OpenRefused(pid, SuspendRights)]
  }

  /** The calls `resume_minecraft` makes, in order, when the open succeeds. */
  function ResumeTrace(pid: Uint32): seq<Event>
  {
    [ProcessOpened(pid, SuspendRights), ProcessResumed(pid), HandleClosed(pid),
     WindowsEnumerated(pid, SwShow)]
  }

  /**
   * Hide, then trim, then suspend, stopping at the first refused open; every
   * handle is scoped to its one call.
   */
  lemma SuspendMinecraftOrder(st: OsState, pid: Uint32)
    ensures SuspendMinecraft(st, pid).trace == st.trace +
      if !Grants(st.grants, pid, TrimRights) then TrimRefusedTrace(pid)
      else if !Grants(st.grants, pid, SuspendRights) then SuspendRefusedTrace(pid)
      else SuspendTrace(pid)
    ensures HandlesScoped(SuspendTrace(pid))
  {
    var trim, stop := HandleCall(WorkingSetEmptied(pid)), HandleCall(ProcessSuspended(pid));
    assert HandlesScoped(trim) by { assert trim[3..] == []; }
    assert HandlesScoped(stop) by { assert stop[3..] == []; }
    HandlesScopedAppend(trim, stop);
    assert SuspendTrace(pid) == [WindowsEnumerated(pid, SwHide)] + (trim + stop);
    assert SuspendTrace(pid)[1..] == trim + stop;
  }

  /** Resume, then show, or only the refused open; every handle scoped to its one call. */
  lemma ResumeMinecraftOrder(st: OsState, pid: Uint32)
    ensures ResumeMinecraft(st, pid).trace == st.trace +
      if Grants(st.grants, pid, SuspendRights) then ResumeTrace(pid) else [OpenRefused(pid, SuspendRights)]
    ensures HandlesScoped(ResumeTrace(pid))
  {
  }

  /** Each outcome of the composites keeps handles scoped to one call. */
  lemma {:induction false} OutcomeTracesScoped(pid: Uint32)
    ensures HandlesScoped(TrimRefusedTrace(pid))
    ensures HandlesScoped(SuspendRefusedTrace(pid))
    ensures HandlesScoped([OpenRefused(pid, SuspendRights)])
  {
    var refusal := [OpenRefused(pid, SuspendRights)];
    assert HandlesScoped(refusal) by { assert refusal[1..] == []; }
    var t := TrimRefusedTrace(pid);
    assert HandlesScoped(t) by {
      assert t[1..] == [OpenRefused(pid, TrimRights)] && t[1..][1..] == [];
    }
    var u := SuspendRefusedTrace(pid);
    assert HandlesScoped(u) by {
      assert u[1..][3..] == refusal;
      assert HandlesScoped(u[1..]);
    }
  }

  /** Neither composite breaks the handle discipline of the trace, whichever open is refused. */
  lemma CompositesKeepHandlesScoped(st: OsState, pid: Uint32)
    requires HandlesScoped(st.trace)
    ensures HandlesScoped(SuspendMinecraft(st, pid).trace)
    ensures HandlesScoped(ResumeMinecraft(st, pid).trace)
  {
    SuspendMinecraftOrder(st, pid);
    ResumeMinecraftOrder(st, pid);
    OutcomeTracesScoped(pid);
    if !Grants(st.grants, pid, TrimRights) {
      HandlesScopedAppend(st.trace, TrimRefusedTrace(pid));
    } else if !Grants(st.grants, pid, SuspendRights) {
      HandlesScopedAppend(st.trace, SuspendRefusedTrace(pid));
    } else {
      HandlesScopedAppend(st.trace, SuspendTrace(pid));
    }
    if Grants(st.grants, pid, SuspendRights) {
      HandlesScopedAppend(st.trace, ResumeTrace(pid));
    } else {
      HandlesScopedAppend(st.trace, [OpenRefused(pid, SuspendRights)]);
    }
  }

  /**
   * After `suspend_minecraft` on a pid that grants both sets of rights, the
   * process is suspended once more and trimmed, all its windows are hidden,
   * and nothing else moved.
   */
  lemma SuspendMinecraftEffect(st: OsState, pid: Uint32)
    requires Grants(st.grants, pid, TrimRights) && Grants(st.grants, pid, SuspendRights)
    ensures var after := SuspendMinecraft(st, pid);
      && after.suspended[pid] == st.suspended[pid] + 1
      && (forall q :: q != pid ==> after.suspended[q] == st.suspended[q])
      && after.trimmed == st.trimmed + {pid}
      && SetVisibility(st.windows, after.windows, pid, false)
      && AllWindows(after.windows, pid, false)
      && after.grants == st.grants
  {
    ApplyToWindowsExact(st.windows, pid, SwHide);
  }

  /**
   * After `resume_minecraft` on a pid that grants `PROCESS_SUSPEND_RESUME`, the
   * process is suspended once less (never below zero), all its windows are
   * shown, and nothing else moved.
   */
  lemma ResumeMinecraftEffect(st: OsState, pid: Uint32)
    requires Grants(st.grants, pid, SuspendRights)
    ensures var after := ResumeMinecraft(st, pid);
      && after.suspended[pid] == (if st.suspended[pid] == 0 then 0 else st.suspended[pid] - 1)
      && (forall q :: q != pid ==> after.suspended[q] == st.suspended[q])
      && after.trimmed == st.trimmed
      && SetVisibility(st.windows, after.windows, pid, true)
      && AllWindows(after.windows, pid, true)
      && after.grants == st.grants
  {
    ApplyToWindowsExact(st.windows, pid, SwShow);
  }

  /** A process suspended at most once is running again after `resume_minecraft`, with all its windows shown. */
  lemma ResumeMinecraftRuns(st: OsState, pid: Uint32)
    requires Grants(st.grants, pid, SuspendRights) && st.suspended[pid] <= 1
    ensures pid !in ResumeMinecraft(st, pid).suspended
    ensures SetVisibility(st.windows, ResumeMinecraft(st, pid).windows, pid, true)
  {
    ResumeMinecraftEffect(st, pid);
  }

  /**
   * From a process with its windows shown, whatever its suspend count, `suspend_minecraft` then
   * `resume_minecraft` gives back the same windows and suspend counts; only
   * the trimmed set and the trace remember it.
   */
  lemma ResumeUndoesSuspend(st: OsState, pid: Uint32)
    requires Grants(st.grants, pid, TrimRights) && Grants(st.grants, pid, SuspendRights)
    requires AllWindows(st.windows, pid, true)
    ensures ResumeMinecraft(SuspendMinecraft(st, pid), pid)
      == st.(trimmed := st.trimmed + {pid}, trace := st.trace + SuspendTrace(pid) + ResumeTrace(pid))
  {
    ShowUndoesHide(st.windows, pid);
    var after := ResumeMinecraft(SuspendMinecraft(st, pid), pid);
    assert after.suspended == st.suspended + multiset{pid} - multiset{pid};
    assert after.suspended == st.suspended;
    assert after.trace == st.trace + SuspendTrace(pid) + ResumeTrace(pid);
  }

  /**
   * Without the all-shown precondition above the round trip fails: a window
   * of the process that was hidden before `suspend_minecraft` is shown by
   * `resume_minecraft`, because `show_window` shows every window the pid owns.
   */
  lemma RoundTripShowsHiddenWindows(st: OsState, pid: Uint32, k: nat)
    requires Grants(st.grants, pid, TrimRights) && Grants(st.grants, pid, SuspendRights)
    requires k < |st.windows| && st.windows[k].owner == pid && !st.windows[k].visible
    ensures var after := ResumeMinecraft(SuspendMinecraft(st, pid), pid);
      && |after.windows| == |st.windows|
      && after.windows[k] == st.windows[k].(visible := true)
      && after.windows != st.windows
  {
    var after := ResumeMinecraft(SuspendMinecraft(st, pid), pid);
    assert after.windows == ApplyToWindows(ApplyToWindows(st.windows, pid, SwHide), pid, SwShow);
    assert after.windows[k] != st.windows[k];
  }

  /** One shown and one hidden window of pid 7: after freeze and thaw both are shown. */
  lemma RoundTripShowsHiddenWindowsExample()
    ensures var st := OsState([Window(1, 7, true), Window(2, 7, false)], multiset{}, {},
                              map[7 := {SuspendResume, SetQuota, QueryInformation}], []);
      ResumeMinecraft(SuspendMinecraft(st, 7), 7).windows == [Window(1, 7, true), Window(2, 7, true)]
  {
    var st := OsState([Window(1, 7, true), Window(2, 7, false)], multiset{}, {},
                      map[7 := {SuspendResume, SetQuota, QueryInformation}], []);
    assert Grants(st.grants, 7, TrimRights) && Grants(st.grants, 7, SuspendRights);
    var after := ResumeMinecraft(SuspendMinecraft(st, 7), 7);
    assert after.windows == ApplyToWindows(ApplyToWindows(st.windows, 7, SwHide), 7, SwShow);
  }

  /**
   * `suspend_minecraft` twice keeps the windows hidden and suspends twice,
   * so one `resume_minecraft` leaves the process suspended.
   */
  lemma SuspendTwiceNeedsTwoResumes(st: OsState, pid: Uint32)
    requires Grants(st.grants, pid, TrimRights) && Grants(st.grants, pid, SuspendRights)
    requires pid !in st.suspended
    ensures var twice := SuspendMinecraft(SuspendMinecraft(st, pid), pid);
      && SetVisibility(st.windows, twice.windows, pid, false)
      && twice.suspended[pid] == 2
      && ResumeMinecraft(twice, pid).suspended[pid] == 1
  {
    SuspendMinecraftEffect(st, pid);
    SuspendMinecraftEffect(SuspendMinecraft(st, pid), pid);
    SetVisibilityThen(st.windows, SuspendMinecraft(st, pid).windows,
                      SuspendMinecraft(SuspendMinecraft(st, pid), pid).windows, pid, false, false);
    ResumeMinecraftEffect(SuspendMinecraft(SuspendMinecraft(st, pid), pid), pid);
  }

  /** `resume_minecraft` on a process that is running leaves it running and shows its windows. */
  lemma ResumeRunningIsHarmless(st: OsState, pid: Uint32)
    requires Grants(st.grants, pid, SuspendRights) && pid !in st.suspended
    ensures ResumeMinecraft(st, pid).suspended == st.suspended
    ensures SetVisibility(st.windows, ResumeMinecraft(st, pid).windows, pid, true)
  {
    ResumeMinecraftEffect(st, pid);
  }

  /**
   * When the open for the working set is refused, `suspend_minecraft` has
   * hidden the windows before it panics, and the process keeps running
   * untrimmed.
   */
  lemma SuspendMinecraftRefused(st: OsState, pid: Uint32)
    requires !Grants(st.grants, pid, TrimRights)
    ensures SuspendMinecraft(st, pid).suspended == st.suspended
    ensures SuspendMinecraft(st, pid).trimmed == st.trimmed
    ensures SetVisibility(st.windows, SuspendMinecraft(st, pid).windows, pid, false)
  {
    ApplyToWindowsExact(st.windows, pid, SwHide);
  }

  /**
   * When the working set could be emptied but the open for suspending is
   * refused, `suspend_minecraft` panics with the windows hidden and the
   * process trimmed, yet still running.
   */
  lemma SuspendMinecraftTrimmedNotSuspended(st: OsState, pid: Uint32)
    requires Grants(st.grants, pid, TrimRights) && !Grants(st.grants, pid, SuspendRights)
    ensures SuspendMinecraft(st, pid).suspended == st.suspended
    ensures SuspendMinecraft(st, pid).trimmed == st.trimmed + {pid}
    ensures SetVisibility(st.windows, SuspendMinecraft(st, pid).windows, pid, false)
  {
    ApplyToWindowsExact(st.windows, pid, SwHide);
  }

  /** When its open is refused, `resume_minecraft` changes nothing but the trace. */
  lemma ResumeMinecraftRefused(st: OsState, pid: Uint32)
    requires !Grants(st.grants, pid, SuspendRights)
    ensures ResumeMinecraft(st, pid) == st.(trace := st.trace + [OpenRefused(pid, SuspendRights)])
  {
  }

  /**
   * A process that refuses the working-set rights but grants
   * `PROCESS_SUSPEND_RESUME` is never suspended by `suspend_minecraft`, and
   * `resume_minecraft` still succeeds on it and shows its windows.
   */
  lemma TrimRefusedResumeStillRuns(st: OsState, pid: Uint32)
    requires !Grants(st.grants, pid, TrimRights) && Grants(st.grants, pid, SuspendRights)
    requires pid !in st.suspended
    ensures var after := ResumeMinecraft(SuspendMinecraft(st, pid), pid);
      && after.suspended == st.suspended
      && after.trimmed == st.trimmed
      && SetVisibility(st.windows, after.windows, pid, true)
  {
    SuspendMinecraftRefused(st, pid);
    ResumeMinecraftEffect(SuspendMinecraft(st, pid), pid);
    SetVisibilityThen(st.windows, SuspendMinecraft(st, pid).windows,
                      ResumeMinecraft(SuspendMinecraft(st, pid), pid).windows, pid, false, true);
  }
}
