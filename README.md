# minecraft_hold_api: a verified model of the process controller

The library finds the Java processes that run Minecraft. It can freeze one:
hide its windows, empty its working set, then suspend it. It can thaw one:
resume it, then show its windows. This project models that core in Dafny and
proves what it does:

- `prelude.dfy`: `Uint32` (Rust's `u32`) and a `Result` wrapper.
- `wmi.dfy`: the WMI result rows. Each row maps a property name to a
  `Variant`.
- `discovery.dfy`: `find_minecrafts`. It is a pure function from the query
  rows to `Ok(list of MinecraftInfo)` or to `Err(panic)`.
- `os_model.dfy`: the OS as a value. It holds the window table, a suspend
  count per process, the set of trimmed processes, the access rights
  `OpenProcess` grants on each process, and a trace of OS calls. Each primitive and each
  composite is a function on this value, and the lemmas are stated about
  these functions.
- `lifecycle.dfy`: class `Os`, which changes that state in place. The
  exported functions are its methods. `EnumWindows` is a loop over the window
  array that calls the `enum_window` callback on each window. Each method's
  postcondition ties the new state to the matching function in `OsModel`.

Modelling decisions:

- **Panics.** The source calls `unwrap`, indexes a `HashMap` and calls
  `todo!()`. Each of these aborts the call. In `find_minecrafts` this is an
  `Err` result carrying the cause: `MissingKey` or `Todo`. In the controller
  it is a method returning `ok == false`, after which no later step runs. The
  only `unwrap` that can fail in the model is the one on `OpenProcess`. It
  fails when the process does not grant every right asked for. The trim asks
  for `PROCESS_SET_QUOTA | PROCESS_QUERY_INFORMATION`, while suspending and
  resuming ask for `PROCESS_SUSPEND_RESUME`, so each open can fail on its own.
  A refused open is recorded in the trace as `OpenRefused`.
- **Laziness.** The iterator chain is lazy. Row 0 is filtered and mapped
  before row 1 is looked at, so the first ill-formed row in query order
  decides the panic.
- **Suspension is counted.** `NtSuspendProcess` and `NtResumeProcess` raise
  and lower each thread's suspend count, so the model keeps a count per pid in
  a multiset. "Suspended" means a count above zero. Resuming at zero changes
  nothing.
- **Window owner.** `GetWindowThreadProcessId` is read from the window table
  as the window's `owner`.
- **Key names.** The query asks for `ProcessID`. The code indexes `ProcessId`,
  which is the case WMI uses for the property. The model's rows use the
  names that the code indexes.

Where the intended behaviour and the code differ, the model follows the code:

- The intended behaviour is that a row with a missing or mistyped field is
  skipped. The code panics, and discards the whole result, when any row lacks
  `CommandLine`, or when a kept row lacks or mistypes `ProcessId` or `Name`.
  Rows the filter drops (those whose `CommandLine` is not a `String` that
  contains `minecraft`) are never inspected further, so their other fields
  may be missing or mistyped.
- A repeated freeze is meant to be idempotent. With counted suspension, two
  freezes need two thaws (`SuspendTwiceNeedsTwoResumes`).
- A freeze followed by a thaw is meant to restore the process as it was. But
  `show_window` shows every window the pid owns, so a window that was hidden
  before the freeze is shown after the thaw (`RoundTripShowsHiddenWindows`,
  `RoundTripShowsHiddenWindowsExample`). The round trip holds only when all
  the pid's windows were shown (`ResumeUndoesSuspend`).
- Per-pid error results and batch isolation are meant to exist. The code has
  neither: any failure aborts.

## Model

| member | source | states |
|---|---|---|
| `Discovery.FindMinecrafts` | minecraft_hold_api/src/lib.rs:154-174 | on success, the output has at most one entry per query row |
| `Discovery.FindMinecraftsOkIff` | minecraft_hold_api/src/lib.rs:154-174 | the call succeeds if and only if every row has a `CommandLine` key and every kept row has a `UI4` `ProcessId` and a `String` `Name` |
| `Discovery.FindMinecraftsFirstPanic` | minecraft_hold_api/src/lib.rs:156-168 | when rows before `i` are well formed and row `i` is not, the call fails with row `i`'s panic: missing key or `todo!()` |
| `Discovery.FindMinecraftsBadPidFails` | minecraft_hold_api/src/lib.rs:163-165 | a kept row whose `ProcessId` is not `UI4` makes the whole call fail, with no partial result |
| `Discovery.FindMinecraftsBadNameFails` | minecraft_hold_api/src/lib.rs:166-168 | a kept row whose `Name` is not `String` makes the whole call fail |
| `Discovery.FindMinecraftsMissingCommandLineFails` | minecraft_hold_api/src/lib.rs:157 | a row with no `CommandLine` key makes the whole call fail |
| `Discovery.FindMinecraftsAppend` | minecraft_hold_api/src/lib.rs:154-174 | the result on `a + b` is the result on `a` followed by the result on `b`; a panic in `a` wins |
| `Discovery.FindMinecraftsSkipsUnkept` | minecraft_hold_api/src/lib.rs:156-161 | a row whose `CommandLine` is present but is not a `String` with the marker (e.g. `Null`) is dropped silently: removing it does not change the result |
| `Discovery.FindMinecraftsSelects` | minecraft_hold_api/src/lib.rs:154-174 | on success the output is exactly the kept rows, in query order, and each entry's `pid` and `name` are that row's `UI4` `ProcessId` and `String` `Name` unchanged |
| `Discovery.FindMinecraftsMembers` | minecraft_hold_api/src/lib.rs:162-173 | on success a `MinecraftInfo` is reported if and only if some kept row maps to it |
| `Discovery.Contains` | minecraft_hold_api/src/lib.rs:158 | `str::contains`: the needle occurs at some position of the haystack; an empty needle occurs in every string, and a needle longer than the haystack in none |
| `Discovery.KeepRow` | minecraft_hold_api/src/lib.rs:156-161 | the `filter` closure: it panics with a missing `CommandLine` key exactly when the row lacks one, and keeps the row exactly when `CommandLine` is a `String` that contains `minecraft` |
| `Discovery.ToInfo` | minecraft_hold_api/src/lib.rs:162-173 | the `map` closure: it succeeds exactly when `ProcessId` is a `UI4` and `Name` a `String`, and then copies both unchanged; otherwise it fails at the first bad field, `ProcessId` before `Name`: a missing key panics naming that key, and a present value of another variant reaches `todo!()` |
| `Discovery.ServerAndEditorExample` | minecraft_hold_api/src/lib.rs:156-173 | a `javaw.exe` row whose command line mentions `minecraft` is reported as `{100, "javaw.exe"}`; a `notepad.exe` row is not |
| `OsModel.LParamOf` | minecraft_hold_api/src/lib.rs:75 | `LPARAM(pid as isize)` is a value of `isize`; on 64 bits it is the pid itself, on 32 bits the pid or the pid minus 2^32 |
| `OsModel.TruncateToU32` | minecraft_hold_api/src/lib.rs:68 | `lprm.0 as u32` keeps the low 32 bits: it is the identity on `u32` values and differs from its argument by a multiple of 2^32 |
| `OsModel.LParamRoundTrip` | minecraft_hold_api/src/lib.rs:64-75 | `LPARAM(pid as isize)` read back as `lprm.0 as u32` is the original pid, for 64-bit and for 32-bit `isize` |
| `OsModel.ApplyToWindow` | minecraft_hold_api/src/lib.rs:64-73 | the callback on one window: handle and owner are kept; a window of the pid is hidden or shown as asked; any other window is left as it was |
| `OsModel.ApplyToWindows` | minecraft_hold_api/src/lib.rs:64-73 | the result has the same length, and each window is the callback's action on the window at that position |
| `OsModel.SetVisibilityThen` | minecraft_hold_api/src/lib.rs:62-95 | setting the visibility of a pid's windows and then setting it again is the same as setting it to the second value directly |
| `OsModel.ApplyToWindowsExact` | minecraft_hold_api/src/lib.rs:62-95 | after `hide_window`/`show_window`, every window owned by the pid is hidden/shown; other windows, and every handle and owner, are unchanged |
| `OsModel.ApplyToWindowsIdempotent` | minecraft_hold_api/src/lib.rs:62-95 | hiding (or showing) twice has the same effect as doing it once |
| `OsModel.ShowUndoesHide` | minecraft_hold_api/src/lib.rs:62-95 | if all of a pid's windows were shown, `show_window` after `hide_window` restores the table exactly |
| `OsModel.HideWindow` | minecraft_hold_api/src/lib.rs:62-77 | `hide_window`: each window the pid owns becomes that same window (same handle, same owner) hidden, and every other window is unchanged; one enumeration is recorded, and the other parts of the state are unchanged |
| `OsModel.ShowWindow` | minecraft_hold_api/src/lib.rs:79-95 | `show_window`: each window the pid owns becomes that same window (same handle, same owner) shown, and every other window is unchanged; one enumeration is recorded, and the other parts of the state are unchanged |
| `OsModel.CleanWorkingSet` | minecraft_hold_api/src/lib.rs:124-131 | `clean_working_set` once its open succeeds: the pid becomes trimmed, no other pid's trimmed status changes, and the trace gains open/empty-working-set/close with the trim rights |
| `OsModel.SuspendProcess` | minecraft_hold_api/src/lib.rs:102-111 | `suspend_process` once its open succeeds: the pid's suspend count goes up by one, every other count is unchanged, and the trace gains open/suspend/close |
| `OsModel.ResumeProcess` | minecraft_hold_api/src/lib.rs:113-122 | `resume_process` once its open succeeds: the pid's suspend count goes down by one (floor 0), every other count is unchanged, and the trace gains open/resume/close |
| `OsModel.Refused` | minecraft_hold_api/src/lib.rs:102-131 | a refused `OpenProcess`: only the refusal, with the rights asked for, is appended to the trace; nothing else changes |
| `OsModel.SuspendMinecraft` | minecraft_hold_api/src/lib.rs:184-189 | `suspend_minecraft`: whatever the opens answer, the pid's windows end hidden and no other window changes; the pid may become trimmed but no other process does; the rights and the earlier trace are kept |
| `OsModel.ResumeMinecraft` | minecraft_hold_api/src/lib.rs:191-195 | `resume_minecraft`: the windows are either untouched (open refused) or the pid's are all shown and no other window changes; the trimmed set and the rights are kept, and the trace only grows |
| `OsModel.HandlesScopedAppend` | minecraft_hold_api/src/lib.rs:103-131 | joining two traces in which every handle is opened for one call and closed right after gives another such trace |
| `OsModel.SuspendMinecraftOrder` | minecraft_hold_api/src/lib.rs:184-189 | `suspend_minecraft` makes its calls in this order: enumerate-and-hide, then open/empty-working-set/close, then open/suspend/close. It stops at the first refused open, which is recorded, so there are three outcomes: trim refused, suspend refused, or all done. Each handle has exactly the rights of its one call |
| `OsModel.ResumeMinecraftOrder` | minecraft_hold_api/src/lib.rs:191-195 | `resume_minecraft` makes its calls in this order: open/resume/close, then enumerate-and-show; if the open is refused, only the refusal is recorded |
| `OsModel.OutcomeTracesScoped` | minecraft_hold_api/src/lib.rs:103-131 | the call sequences that stop at a refused open also leave no handle open |
| `OsModel.CompositesKeepHandlesScoped` | minecraft_hold_api/src/lib.rs:103-131 | neither composite leaves a handle open or uses one for two calls, whichever open is refused |
| `OsModel.SuspendMinecraftEffect` | minecraft_hold_api/src/lib.rs:184-189 | after `suspend_minecraft` on a pid that grants both sets of rights: its suspend count is one higher, it is trimmed, each window the pid owns becomes that same window (same handle, same owner) hidden, and every other window is unchanged, and all other processes are unchanged |
| `OsModel.ResumeMinecraftEffect` | minecraft_hold_api/src/lib.rs:191-195 | after `resume_minecraft` on a pid that grants `PROCESS_SUSPEND_RESUME`: its suspend count is one lower (floor 0), each window the pid owns becomes that same window (same handle, same owner) shown, and every other window is unchanged, and everything else is unchanged |
| `OsModel.ResumeMinecraftRuns` | minecraft_hold_api/src/lib.rs:192-195 | after resume, a pid that had been suspended at most once is not suspended, and each window the pid owns becomes that same window (same handle, same owner) shown, and every other window is unchanged |
| `OsModel.ResumeUndoesSuspend` | minecraft_hold_api/src/lib.rs:184-195 | suspend then resume on a process whose windows are all shown, whatever its suspend count, restores its windows and suspend counts; only the trimmed set and the trace differ |
| `OsModel.SuspendTwiceNeedsTwoResumes` | minecraft_hold_api/src/lib.rs:184-195 | after two suspends each window the pid owns becomes that same window (same handle, same owner) hidden, and every other window is unchanged, and the suspend count is 2; one resume leaves the process suspended |
| `OsModel.ResumeRunningIsHarmless` | minecraft_hold_api/src/lib.rs:192-195 | `resume_minecraft` on a running process leaves the suspend counts unchanged, and each window the pid owns becomes that same window (same handle, same owner) shown, and every other window is unchanged |
| `OsModel.RoundTripShowsHiddenWindows` | minecraft_hold_api/src/lib.rs:79-95 | a window of the pid that was hidden before `suspend_minecraft` is shown after `resume_minecraft`, so the round trip changes the table |
| `OsModel.RoundTripShowsHiddenWindowsExample` | minecraft_hold_api/src/lib.rs:184-195 | with one shown and one hidden window of pid 7, freeze then thaw leaves both shown |
| `OsModel.SuspendMinecraftRefused` | minecraft_hold_api/src/lib.rs:184-189 | if the open for the working set is refused, `suspend_minecraft` panics after hiding: each window the pid owns becomes that same window (same handle, same owner) hidden, and every other window is unchanged; the process is neither suspended nor trimmed |
| `OsModel.SuspendMinecraftTrimmedNotSuspended` | minecraft_hold_api/src/lib.rs:184-189 | if only the open for suspending is refused, `suspend_minecraft` panics with the process trimmed but still running, and each window the pid owns becomes that same window (same handle, same owner) hidden, and every other window is unchanged |
| `OsModel.ResumeMinecraftRefused` | minecraft_hold_api/src/lib.rs:191-195 | if its open is refused, `resume_minecraft` changes nothing but recording the refusal; the windows stay hidden |
| `OsModel.TrimRefusedResumeStillRuns` | minecraft_hold_api/src/lib.rs:102-131 | a process that refuses the working-set rights but grants `PROCESS_SUSPEND_RESUME` is never suspended by a freeze; a thaw still succeeds on it, leaves the counts and the trimmed set as they were, and each window the pid owns becomes that same window (same handle, same owner) shown, and every other window is unchanged |
| `Lifecycle.Os.EnumWindowCallback` | minecraft_hold_api/src/lib.rs:64-73 | the callback hides or shows the current window exactly when its owner is the pid in `lprm`, leaves every other window alone, and always returns true |
| `Lifecycle.Os.EnumWindows` | minecraft_hold_api/src/lib.rs:74-76 | the enumeration visits every window and succeeds, so `unwrap` never panics; the table becomes the callback applied to every window |
| `Lifecycle.Os.HideWindow` | minecraft_hold_api/src/lib.rs:62-77 | the new state is `OsModel.HideWindow` of the old state, and the handle discipline is kept |
| `Lifecycle.Os.ShowWindow` | minecraft_hold_api/src/lib.rs:79-95 | the new state is `OsModel.ShowWindow` of the old state |
| `Lifecycle.Os.CallWithHandle` | minecraft_hold_api/src/lib.rs:103-110 | it opens a handle with the rights of one call, makes the call, and closes the handle; it fails, recording only the refused open, exactly when the process does not grant those rights |
| `Lifecycle.Os.CleanWorkingSet` | minecraft_hold_api/src/lib.rs:124-131 | if the pid grants `PROCESS_SET_QUOTA` and `PROCESS_QUERY_INFORMATION`, it becomes trimmed; otherwise it panics with only the refusal recorded |
| `Lifecycle.Os.SuspendProcess` | minecraft_hold_api/src/lib.rs:102-111 | if the pid grants `PROCESS_SUSPEND_RESUME`, its suspend count goes up by one; otherwise it panics with only the refusal recorded |
| `Lifecycle.Os.ResumeProcess` | minecraft_hold_api/src/lib.rs:113-122 | if the pid grants `PROCESS_SUSPEND_RESUME`, its suspend count goes down by one (floor 0); otherwise it panics with only the refusal recorded |
| `Lifecycle.Os.SuspendMinecraft` | minecraft_hold_api/src/lib.rs:184-189 | the new state is `OsModel.SuspendMinecraft` of the old state (hide, trim, suspend; it stops at the first refused open), and the call succeeds exactly when the pid grants both sets of rights |
| `Lifecycle.Os.ResumeMinecraft` | minecraft_hold_api/src/lib.rs:191-195 | the new state is `OsModel.ResumeMinecraft` of the old state (resume, then show), and the call succeeds exactly when the pid grants `PROCESS_SUSPEND_RESUME` |

## Left out

- `get_dbg_privilege` (lib.rs:31-60): only token and privilege API calls, with no logic of its own.
- `window_visible` (lib.rs:97-100): a single call to `IsWindowVisible`.
- `get_process_memory_info` (lib.rs:133-141): the number it returns is whatever the OS reports. It also opens a handle at lib.rs:137 and never closes it, so it is the one function in the file that breaks the open/use/close rule `HandlesScoped` states; the rule covers only the modelled functions.
- `find_minecrafts_native` (lib.rs:177-182): JSON serialisation and `CString` construction are library code.
- WMI connection, COM setup and the query text (lib.rs:145-153). This includes the `name like '%java%'` prefilter, which runs inside WMI. The model's input is the rows the query returns.
- Loading `ntdll.dll` and looking up `NtSuspendProcess`/`NtResumeProcess`: assumed to succeed. Only their effect on the suspend count is modelled.
- `EmptyWorkingSet` and `CloseHandle` failing: assumed not to happen. The one `unwrap` that can fail in the model is the one on `OpenProcess`.
- OsModel.SuspendMinecraft: the rights a process grants are fixed while a call runs. A process that exits between the two opens is not modelled as such; its effect (trim done, suspend refused) is the outcome where the process grants the working-set rights but not `PROCESS_SUSPEND_RESUME`.
- Windows being created or destroyed while `EnumWindows` runs, and how a suspended process handles `ShowWindow` messages: not modelled. The window table is fixed for the duration of a call.
- The `#[test]` functions (lib.rs:197-227): they act on live processes and assert nothing.
- Pid reuse between discovery and action, concurrent callers, per-pid error results: none of these is in the code.
