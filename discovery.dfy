/**
 * The process matcher: `find_minecrafts` turns the rows of the WMI query into
 * the list of game processes, by a lazy `filter`/`map`/`collect` chain that
 * panics on rows of an unexpected shape.
 */
module Discovery {
  import opened Prelude
  import opened Wmi

  /** The marker searched for in a command line (case-sensitive). */
  const Marker: string := "minecraft"

  const CommandLineKey: string := "CommandLine"
  const ProcessIdKey: string := "ProcessId"
  const NameKey: string := "Name"

  /** One discovered game process. */
  datatype MinecraftInfo = MinecraftInfo(pid: Uint32, name: string)

  /**
   * Why a call panics: indexing a `HashMap` with a key it lacks, or reaching
   * `todo!()` on a value of an unexpected variant.
   */
  datatype Panic = MissingKey(key: string) | Todo

  /** `needle` occurs in `haystack` starting at position `i`. */
  predicate OccursAt(haystack: string, needle: string, i: nat)
  {
    i + |needle| <= |haystack| && haystack[i..i + |needle|] == needle
  }

  /** `str::contains`: a substring search, with no case folding and no wildcards. */
  predicate Contains(haystack: string, needle: string)
    ensures needle == [] ==> Contains(haystack, needle)
    ensures Contains(haystack, needle) ==> |needle| <= |haystack|
  {
    assert needle == [] ==> OccursAt(haystack, needle, 0) by {
      if needle == [] { assert haystack[0..0] == needle; }
    }
    exists i: nat :: i <= |haystack| && OccursAt(haystack, needle, i)
  }

  /** The row's command line is a string that mentions the marker. */
  predicate Kept(row: Row)
  {
    && CommandLineKey in row
    && row[CommandLineKey].String?
    && Contains(row[CommandLineKey].text, Marker)
  }

  /**
   * The `filter` closure: indexing `CommandLine` panics when the key is
   * absent; otherwise only a `String` value can keep the row.
   */
  function KeepRow(row: Row): (r: Result<bool, Panic>)
    ensures r.Err? <==> CommandLineKey !in row
    ensures r.Err? ==> r.error == MissingKey(CommandLineKey)
    ensures r == Ok(true) <==> Kept(row)
  {
    if CommandLineKey !in row then Err(MissingKey(CommandLineKey)) else Ok(Kept(row))
  }

  /**
   * The `map` closure: `ProcessId` must be a `UI4` and `Name` a `String`;
   * a missing key panics on indexing, a value of another variant on `todo!()`.
   */
  function ToInfo(row: Row): (r: Result<MinecraftInfo, Panic>)
    ensures r.Ok? <==> ProcessIdKey in row && row[ProcessIdKey].UI4? && NameKey in row && row[NameKey].String?
    ensures r.Ok? ==> r.value.pid == row[ProcessIdKey].unsigned && r.value.name == row[NameKey].text
    ensures r.Err? && r.error.MissingKey? ==> r.error.key in {ProcessIdKey, NameKey} && r.error.key !in row
    ensures ProcessIdKey !in row ==> r == Err(MissingKey(ProcessIdKey))
    ensures ProcessIdKey in row && !row[ProcessIdKey].UI4? ==> r == Err(Todo)
    ensures ProcessIdKey in row && row[ProcessIdKey].UI4? && NameKey !in row ==> r == Err(MissingKey(NameKey))
    ensures ProcessIdKey in row && row[ProcessIdKey].UI4? && NameKey in row && !row[NameKey].String? ==> r == Err(Todo)
  {
    if ProcessIdKey !in row then Err(MissingKey(ProcessIdKey))
    else if !row[ProcessIdKey].UI4? then Err(Todo)
    else if NameKey !in row then Err(MissingKey(NameKey))
    else if !row[NameKey].String? then Err(Todo)
    else Ok(MinecraftInfo(row[ProcessIdKey].unsigned, row[NameKey].text))
  }

  /** A row that the chain passes without panicking. */
  predicate WellFormed(row: Row)
  {
    CommandLineKey in row && (Kept(row) ==> ToInfo(row).Ok?)
  }

  /** The panic an ill-formed row raises: the filter's, else the map's. */
  function RowPanic(row: Row): Panic
    requires !WellFormed(row)
  {
    if KeepRow(row).Err? then KeepRow(row).error else ToInfo(row).error
  }

  /**
   * `find_minecrafts` on the rows of the query. The iterator is lazy, so the
   * rows are filtered and mapped one at a time in query order, and the first
   * panic ends the whole call with no partial result.
   */
  function FindMinecrafts(rows: seq<Row>): (r: Result<seq<MinecraftInfo>, Panic>)
    ensures r.Ok? ==> |r.value| <= |rows|
  {
    if rows == [] then Ok([])
    else
      match KeepRow(rows[0])
      case Err(p) => Err(p)
      case Ok(keep) =>
        if !keep then FindMinecrafts(rows[1..])
        else
          match ToInfo(rows[0])
          case Err(p) => Err(p)
          case Ok(info) =>
            match FindMinecrafts(rows[1..])
            case Err(p) => Err(p)
            case Ok(rest) => Ok([info] + rest)
  }

  /** Running the chain over `a` and then over `b`: a panic in `a` wins. */
  function Then(first: Result<seq<MinecraftInfo>, Panic>, second: Result<seq<MinecraftInfo>, Panic>): Result<seq<MinecraftInfo>, Panic>
  {
    match first
    case Err(p) => Err(p)
    case Ok(xs) =>
      match second
      case Err(p) => Err(p)
      case Ok(ys) => Ok(xs + ys)
  }

  /** The call succeeds exactly when every row is well formed. */
  lemma {:induction false} FindMinecraftsOkIff(rows: seq<Row>)
    ensures FindMinecrafts(rows).Ok? <==> forall i :: 0 <= i < |rows| ==> WellFormed(rows[i])
  {
    if rows != [] {
      FindMinecraftsOkIff(rows[1..]);
      assert forall i :: 1 <= i < |rows| ==> rows[i] == rows[1..][i - 1];
      if FindMinecrafts(rows).Ok? {
        assert WellFormed(rows[0]);
        forall i | 0 <= i < |rows| ensures WellFormed(rows[i]) {
          if i > 0 { assert rows[i] == rows[1..][i - 1]; }
        }
      }
    }
  }

  /**
   * When rows before `i` are well formed and row `i` is not, the call panics
   * with row `i`'s panic: the first offending row in query order decides.
   */
  lemma {:induction false} FindMinecraftsFirstPanic(rows: seq<Row>, i: nat)
    requires i < |rows|
    requires forall j :: 0 <= j < i ==> WellFormed(rows[j])
    requires !WellFormed(rows[i])
    ensures FindMinecrafts(rows) == Err(RowPanic(rows[i]))
  {
    if i > 0 {
      assert WellFormed(rows[0]);
      assert forall j :: 0 <= j < i - 1 ==> rows[1..][j] == rows[j + 1];
      FindMinecraftsFirstPanic(rows[1..], i - 1);
    }
  }

  /** A kept row whose `ProcessId` is not a `UI4` makes the whole call fail. */
  lemma FindMinecraftsBadPidFails(rows: seq<Row>, i: nat)
    requires i < |rows| && Kept(rows[i])
    requires ProcessIdKey in rows[i] && !rows[i][ProcessIdKey].UI4?
    ensures FindMinecrafts(rows).Err?
  {
    FindMinecraftsOkIff(rows);
  }

  /** A kept row whose `Name` is not a `String` makes the whole call fail. */
  lemma FindMinecraftsBadNameFails(rows: seq<Row>, i: nat)
    requires i < |rows| && Kept(rows[i])
    requires NameKey in rows[i] && !rows[i][NameKey].String?
    ensures FindMinecrafts(rows).Err?
  {
    FindMinecraftsOkIff(rows);
  }

  /** A row without a `CommandLine` key makes the whole call fail. */
  lemma FindMinecraftsMissingCommandLineFails(rows: seq<Row>, i: nat)
    requires i < |rows| && CommandLineKey !in rows[i]
    ensures FindMinecrafts(rows).Err?
  {
    FindMinecraftsOkIff(rows);
  }

  /** The chain distributes over concatenation of the query rows. */
  lemma {:induction false} FindMinecraftsAppend(a: seq<Row>, b: seq<Row>)
    ensures FindMinecrafts(a + b) == Then(FindMinecrafts(a), FindMinecrafts(b))
  {
    if a == [] {
      assert a + b == b;
      if FindMinecrafts(b).Ok? { assert [] + FindMinecrafts(b).value == FindMinecrafts(b).value; }
    } else {
      assert (a + b)[0] == a[0];
      assert (a + b)[1..] == a[1..] + b;
      FindMinecraftsAppend(a[1..], b);
      if KeepRow(a[0]) == Ok(true) && ToInfo(a[0]).Ok? {
        match FindMinecrafts(a[1..])
        case Err(_) =>
        case Ok(rest) =>
          match FindMinecrafts(b)
          case Err(_) =>
          case Ok(ys) => assert [ToInfo(a[0]).value] + rest + ys == [ToInfo(a[0]).value] + (rest + ys);
      }
    }
  }

  /**
   * A row whose `CommandLine` is present but is not a `String` carrying the
   * marker (a `Null` command line, say) is dropped silently: the result is
   * the one the remaining rows give.
   */
  lemma FindMinecraftsSkipsUnkept(rows: seq<Row>, i: nat)
    requires i < |rows|
    requires CommandLineKey in rows[i] && !Kept(rows[i])
    ensures FindMinecrafts(rows) == FindMinecrafts(rows[..i] + rows[i + 1..])
  {
    var before, after := rows[..i], rows[i + 1..];
    assert rows == before + ([rows[i]] + after);
    assert FindMinecrafts([rows[i]]) == Ok([]) by {
      assert [rows[i]][0] == rows[i] && [rows[i]][1..] == [];
    }
    calc {
      FindMinecrafts(rows);
      { FindMinecraftsAppend(before, [rows[i]] + after); }
      Then(FindMinecrafts(before), FindMinecrafts([rows[i]] + after));
      { FindMinecraftsAppend([rows[i]], after);
        if FindMinecrafts(after).Ok? { assert [] + FindMinecrafts(after).value == FindMinecrafts(after).value; } }
      Then(FindMinecrafts(before), FindMinecrafts(after));
      { FindMinecraftsAppend(before, after); }
      FindMinecrafts(before + after);
    }
  }

  /** `info` carries the row's `ProcessId` and `Name` values unchanged. */
  predicate Describes(row: Row, info: MinecraftInfo)
  {
    && ProcessIdKey in row && row[ProcessIdKey] == UI4(info.pid)
    && NameKey in row && row[NameKey] == String(info.name)
  }

  /** Row `idx[k]` is kept and is described by `out[k]`, for every `k`. */
  ghost predicate Positions(rows: seq<Row>, out: seq<MinecraftInfo>, idx: seq<nat>)
  {
    && |idx| == |out|
    && forall k :: 0 <= k < |idx| ==> idx[k] < |rows| && Kept(rows[idx[k]]) && Describes(rows[idx[k]], out[k])
  }

  /** The positions are strictly increasing: query order is kept. */
  ghost predicate Increasing(idx: seq<nat>)
  {
    forall k, l :: 0 <= k < l < |idx| ==> idx[k] < idx[l]
  }

  /** Every kept row is among the positions. */
  ghost predicate Covers(rows: seq<Row>, idx: seq<nat>)
  {
    forall i :: 0 <= i < |rows| && Kept(rows[i]) ==> i in idx
  }

  /**
   * `out` is the kept rows of `rows` in order: `idx` lists their positions,
   * increasing, each kept row is among them, and `out[k]` describes row `idx[k]`.
   */
  ghost predicate SelectsKept(rows: seq<Row>, out: seq<MinecraftInfo>, idx: seq<nat>)
  {
    Positions(rows, out, idx) && Increasing(idx) && Covers(rows, idx)
  }

  /** Every position moved one row on. */
  function Shift(tail: seq<nat>): (r: seq<nat>)
    ensures |r| == |tail|
    ensures forall k :: 0 <= k < |tail| ==> r[k] == tail[k] + 1
  {
    if tail == [] then [] else [tail[0] + 1] + Shift(tail[1..])
  }

  /** The positions in `rows[1..]` moved to positions in `rows`, behind the first row's if it is kept. */
  function ConsPositions(keepFirst: bool, tail: seq<nat>): (idx: seq<nat>)
  {
    (if keepFirst then [0] else []) + Shift(tail)
  }

  lemma PositionsCons(rows: seq<Row>, rest: seq<MinecraftInfo>, tail: seq<nat>, head: seq<MinecraftInfo>)
    requires |rows| > 0 && Positions(rows[1..], rest, tail)
    requires |head| == (if Kept(rows[0]) then 1 else 0)
    requires Kept(rows[0]) ==> Describes(rows[0], head[0])
    ensures Positions(rows, head + rest, ConsPositions(Kept(rows[0]), tail))
  {
    var idx := ConsPositions(Kept(rows[0]), tail);
    var out := head + rest;
    forall k | 0 <= k < |idx|
      ensures idx[k] < |rows| && Kept(rows[idx[k]]) && Describes(rows[idx[k]], out[k])
    {
      if k < |head| {
        assert idx[k] == 0 && out[k] == head[0];
      } else {
        var j := k - |head|;
        assert idx[k] == tail[j] + 1 && out[k] == rest[j];
        assert rows[idx[k]] == rows[1..][tail[j]];
      }
    }
  }

  lemma IncreasingCons(keepFirst: bool, tail: seq<nat>)
    requires Increasing(tail)
    ensures Increasing(ConsPositions(keepFirst, tail))
  {
    var idx := ConsPositions(keepFirst, tail);
    var h := |idx| - |tail|;
    forall k, l | 0 <= k < l < |idx| ensures idx[k] < idx[l] {
      assert idx[l] == tail[l - h] + 1;
      if k >= h {
        assert idx[k] == tail[k - h] + 1;
      }
    }
  }

  lemma CoversCons(rows: seq<Row>, tail: seq<nat>)
    requires |rows| > 0 && Covers(rows[1..], tail)
    ensures Covers(rows, ConsPositions(Kept(rows[0]), tail))
  {
    var idx := ConsPositions(Kept(rows[0]), tail);
    var h := |idx| - |tail|;
    forall i | 0 <= i < |rows| && Kept(rows[i]) ensures i in idx {
      if i > 0 {
        assert rows[i] == rows[1..][i - 1];
        var j :| 0 <= j < |tail| && tail[j] == i - 1;
        assert idx[j + h] == i;
      }
    }
  }

  /**
   * On success the output is the kept rows, in query order, each carrying
   * the row's `ProcessId` and `Name` unchanged, and no kept row is missing.
   */
  lemma {:induction false} FindMinecraftsSelects(rows: seq<Row>) returns (idx: seq<nat>)
    requires FindMinecrafts(rows).Ok?
    ensures SelectsKept(rows, FindMinecrafts(rows).value, idx)
  {
    if rows == [] {
      idx := [];
    } else {
      var tail := FindMinecraftsSelects(rows[1..]);
      var rest := FindMinecrafts(rows[1..]).value;
      var head := if Kept(rows[0]) then [ToInfo(rows[0]).value] else [];
      assert FindMinecrafts(rows).value == head + rest;
      PositionsCons(rows, rest, tail, head);
      IncreasingCons(Kept(rows[0]), tail);
      CoversCons(rows, tail);
      idx := ConsPositions(Kept(rows[0]), tail);
    }
  }

  /** A process is reported exactly when some kept row describes it. */
  lemma FindMinecraftsMembers(rows: seq<Row>, x: MinecraftInfo)
    requires FindMinecrafts(rows).Ok?
    ensures x in FindMinecrafts(rows).value <==>
      exists i :: 0 <= i < |rows| && Kept(rows[i]) && ToInfo(rows[i]) == Ok(x)
  {
    var out := FindMinecrafts(rows).value;
    var idx := FindMinecraftsSelects(rows);
    FindMinecraftsOkIff(rows);
    if x in out {
      var k :| 0 <= k < |out| && out[k] == x;
      assert Kept(rows[idx[k]]) && Describes(rows[idx[k]], x);
      assert ToInfo(rows[idx[k]]) == Ok(x);
    }
    if exists i :: 0 <= i < |rows| && Kept(rows[i]) && ToInfo(rows[i]) == Ok(x) {
      var i :| 0 <= i < |rows| && Kept(rows[i]) && ToInfo(rows[i]) == Ok(x);
      var k :| 0 <= k < |idx| && idx[k] == i;
      assert out[k] == x;
    }
  }

  /**
   * A Java server launched with a `minecraft` world is reported and an
   * editor is not.
   */
  lemma ServerAndEditorExample()
    ensures FindMinecrafts([
      map[NameKey := String("javaw.exe"), ProcessIdKey := UI4(100),
          CommandLineKey := String("java -jar server.jar --world minecraft_save")],
      map[NameKey := String("notepad.exe"), ProcessIdKey := UI4(200),
          CommandLineKey := String("notepad.exe")]])
      == Ok([MinecraftInfo(100, "javaw.exe")])
  {
    var server := "java -jar server.jar --world minecraft_save";
    var serverRow := map[NameKey := String("javaw.exe"), ProcessIdKey := UI4(100),
                         CommandLineKey := String(server)];
    var editor := "notepad.exe";
    var editorRow := map[NameKey := String("notepad.exe"), ProcessIdKey := UI4(200),
                         CommandLineKey := String(editor)];
    assert Kept(serverRow) by {
      assert server[29..38] == Marker by {
        forall j | 0 <= j < 9 ensures server[29..38][j] == Marker[j] {
          assert server[29..38][j] == server[29 + j];
        }
      }
      assert OccursAt(server, Marker, 29);
    }
    assert !Kept(editorRow) by {
      forall i: nat | i <= |editor| ensures !OccursAt(editor, Marker, i) {
        if i + |Marker| <= |editor| {
          assert editor[i..i + |Marker|][0] == editor[i] != 'm';
        }
      }
    }
    assert ToInfo(serverRow) == Ok(MinecraftInfo(100, "javaw.exe"));
    assert FindMinecrafts([editorRow]) == Ok([]) by {
      assert [editorRow][1..] == [];
    }
    var rows := [serverRow, editorRow];
    assert rows[0] == serverRow && rows[1..] == [editorRow];
    assert KeepRow(rows[0]) == Ok(true);
    assert FindMinecrafts(rows) == Ok([MinecraftInfo(100, "javaw.exe")] + []);
    assert [MinecraftInfo(100, "javaw.exe")] + [] == [MinecraftInfo(100, "javaw.exe")];
  }
}
