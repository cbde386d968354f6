/** The process table, summed by user and by command under a bounded set of labels. */
module Activity {
  import opened Wrappers
  import opened Totals

  const COMMAND_CAP: nat := 128
  const OTHER: string := "__other__"
  const IDLE: string := "idle"

  // ----- Rows -----

  /** A cell of a row is a text, or something else that counts as absent. */
  datatype Cell = Text(text: string) | NotText

  datatype RawRow = Table(cells: map<string, Cell>) | NotTable

  /** How the texts of a row are read: the trimmed text, the command, the label of its
      thread, a percentage and a size. */
  datatype Reader = Reader(
    trim: string -> string,
    command: string -> string,
    thread: (string, string) -> string,
    percent: string -> Option<real>,
    size: string -> Option<real>)

  /** A row that is counted. */
  datatype Sample = Sample(user: string, pid: string, thread: string, command: string, cpu: real, res: real)

  function CellText(reader: Reader, row: map<string, Cell>, name: string): string {
    if name in row && row[name].Text? then reader.trim(row[name].text) else ""
  }

  /** The sample of a row; the idle thread and a row that does not read in full have none. */
  function SampleOf(reader: Reader, raw: RawRow): Option<Sample> {
    if raw.NotTable? then None else
    var text := name => CellText(reader, raw.cells, name);
    var command := reader.command(text("COMMAND"));
    if command == "" || command == IDLE || text("USERNAME") == "" || text("PID") == "" then None else
    var cpu, res := reader.percent(text("WCPU")), reader.size(text("RES"));
    if cpu.None? || res.None? then None
    else Some(Sample(text("USERNAME"), text("PID"), reader.thread(text("COMMAND"), command), command, cpu.value, res.value))
  }

  function Samples(reader: Reader, rows: seq<RawRow>): seq<Sample> {
    if rows == [] then [] else
    var last := SampleOf(reader, rows[|rows| - 1]);
    Samples(reader, rows[..|rows| - 1]) + if last.Some? then [last.value] else []
  }

  /** A row is read as this sample: a table whose command is neither empty nor the idle
      thread's, with a user, a PID, a percentage and a size. */
  predicate ReadAs(reader: Reader, raw: RawRow, s: Sample) {
    raw.Table?
    && var text := (name: string) => if name in raw.cells && raw.cells[name].Text? then reader.trim(raw.cells[name].text) else "";
    && s.command == reader.command(text("COMMAND")) && s.command != "" && s.command != "idle"
    && s.thread == reader.thread(text("COMMAND"), s.command)
    && s.user == text("USERNAME") && s.user != ""
    && s.pid == text("PID") && s.pid != ""
    && reader.percent(text("WCPU")) == Some(s.cpu)
    && reader.size(text("RES")) == Some(s.res)
  }

  /** The samples of a table are those its rows are read as, row after row. */
  lemma {:induction false} SamplesAreRows(reader: Reader, rows: seq<RawRow>, raw: RawRow)
    ensures forall s :: ReadAs(reader, raw, s) ==> Samples(reader, rows + [raw]) == Samples(reader, rows) + [s]
    ensures (forall s :: !ReadAs(reader, raw, s)) ==> Samples(reader, rows + [raw]) == Samples(reader, rows)
  {
    assert (rows + [raw])[..|rows|] == rows;
    var sample := SampleOf(reader, raw);
    if sample.Some? {
      assert ReadAs(reader, raw, sample.value);
    }
  }

  // ----- Labels -----

  /** The label of a command: its own while there is room or it has one already. */
  function Label(known: set<string>, command: string): string {
    if command in known || |known| < COMMAND_CAP then command else OTHER
  }

  function Known(asked: seq<string>): set<string> {
    if asked == [] then {} else
    var before := Known(asked[..|asked| - 1]);
    before + {Label(before, asked[|asked| - 1])}
  }

  function LabelAt(asked: seq<string>, i: nat): string
    requires i < |asked|
  {
    Label(Known(asked[..i]), asked[i])
  }

  function Distinct(asked: seq<string>): set<string> { set c | c in asked }

  lemma {:induction false} KnownGrows(asked: seq<string>, i: nat)
    requires i <= |asked|
    ensures Known(asked[..i]) <= Known(asked)
  {
    if i < |asked| {
      KnownGrows(asked[..|asked| - 1], i);
      assert asked[..|asked| - 1][..i] == asked[..i];
    } else {
      assert asked[..i] == asked;
    }
  }

  /** There are never more than the cap and the overflow label. */
  lemma {:induction false} LabelsAreBounded(asked: seq<string>)
    ensures |Known(asked) - {OTHER}| <= COMMAND_CAP
    ensures |Known(asked)| <= COMMAND_CAP + 1
  {
    if asked == [] {
    } else {
      var before := Known(asked[..|asked| - 1]);
      var mine := Label(before, asked[|asked| - 1]);
      LabelsAreBounded(asked[..|asked| - 1]);
      if mine in before {
        assert before + {mine} == before;
      } else if mine == OTHER {
        assert (before + {mine}) - {OTHER} == before - {OTHER};
      } else {
        assert (before + {mine}) - {OTHER} == (before - {OTHER}) + {mine};
        assert |before - {OTHER}| <= |before|;
      }
      assert |Known(asked)| <= |Known(asked) - {OTHER}| + 1 by { OneMore(Known(asked), OTHER); }
    }
  }

  lemma OneMore(s: set<string>, x: string)
    ensures |s| <= |s - {x}| + 1 && |s - {x}| <= |s|
  {
    if x in s {
      assert s == (s - {x}) + {x};
    } else {
      assert s - {x} == s;
    }
  }

  /** Until the cap is passed every name has its label; from the cap on it stays reached. */
  lemma {:induction false} RoomIsDistinctNames(asked: seq<string>)
    ensures |Distinct(asked)| <= COMMAND_CAP ==> Known(asked) == Distinct(asked)
    ensures |Distinct(asked)| > COMMAND_CAP ==> |Known(asked)| >= COMMAND_CAP
  {
    if asked == [] {
    } else {
      var init, last := asked[..|asked| - 1], asked[|asked| - 1];
      RoomIsDistinctNames(init);
      DistinctMore(init, last);
      assert init + [last] == asked;
      KnownGrows(asked, |asked| - 1);
      SubsetSize(Known(init), Known(asked));
    }
  }

  lemma DistinctMore(init: seq<string>, last: string)
    ensures Distinct(init + [last]) == Distinct(init) + {last}
    ensures |Distinct(init)| <= |Distinct(init + [last])| <= |Distinct(init)| + 1
    ensures last !in Distinct(init) ==> |Distinct(init + [last])| == |Distinct(init)| + 1
  {
    assert Distinct(init + [last]) == Distinct(init) + {last};
    if last in Distinct(init) {
      assert Distinct(init) + {last} == Distinct(init);
    }
  }

  lemma SubsetSize(a: set<string>, b: set<string>)
    requires a <= b
    ensures |a| <= |b|
  {
    assert b == a + (b - a);
  }

  /** A command keeps its own name exactly when fewer than the cap of other names came
      before it first did. */
  lemma FirstNamesKeepTheirs(asked: seq<string>, i: nat)
    requires i < |asked| && asked[i] !in asked[..i]
    ensures LabelAt(asked, i) == asked[i] <==> |Distinct(asked[..i])| < COMMAND_CAP || asked[i] == OTHER
    ensures LabelAt(asked, i) != asked[i] ==> LabelAt(asked, i) == OTHER
  {
    RoomIsDistinctNames(asked[..i]);
    if |Distinct(asked[..i])| >= COMMAND_CAP && asked[i] != OTHER {
      OnlyNames(asked[..i], asked[i]);
    }
  }

  lemma {:induction false} OnlyNames(asked: seq<string>, name: string)
    requires name !in asked && name != OTHER
    ensures name !in Known(asked)
  {
    if asked == [] {
    } else {
      OnlyNames(asked[..|asked| - 1], name);
    }
  }

  /** The label a command receives first is the one it receives for ever. */
  lemma LabelsAreStable(asked: seq<string>, i: nat, j: nat)
    requires i < j < |asked| && asked[i] == asked[j]
    ensures LabelAt(asked, i) == LabelAt(asked, j)
  {
    var early, late := asked[..i + 1], asked[..j];
    assert late[..i + 1] == early && early[..i] == asked[..i];
    KnownGrows(late, i + 1);
    KnownGrows(early, i);
    if LabelAt(asked, i) == asked[i] {
      assert asked[i] in Known(early);
    } else {
      SubsetSize(Known(asked[..i]), Known(late));
      StaysOut(asked, asked[i], i, j);
    }
  }

  /** Once the labels are full, a name without one gets none. */
  lemma {:induction false} StaysOut(asked: seq<string>, name: string, i: nat, j: nat)
    requires i <= j <= |asked| && name != OTHER
    requires name !in Known(asked[..i]) && |Known(asked[..i])| >= COMMAND_CAP
    ensures name !in Known(asked[..j]) && |Known(asked[..j])| >= COMMAND_CAP
    decreases j
  {
    if i < j {
      StaysOut(asked, name, i, j - 1);
      assert asked[..j][..j - 1] == asked[..j - 1];
      SubsetSize(Known(asked[..j - 1]), Known(asked[..j]));
    }
  }

  // ----- What is charged -----

  /** The commands that samples ask labels for: the thread's, then the process's. */
  function Asked(samples: seq<Sample>): seq<string> {
    if samples == [] then [] else
    var last := samples[|samples| - 1];
    Asked(samples[..|samples| - 1]) + [last.thread, last.command]
  }

  function ThreadLabel(before: seq<Sample>, s: Sample): string {
    Label(Known(Asked(before)), s.thread)
  }

  function MemoryLabel(before: seq<Sample>, s: Sample): string {
    Label(Known(Asked(before) + [s.thread]), s.command)
  }

  /** Whether the overflow label stands in for one of the sample's names. */
  predicate Folded(before: seq<Sample>, s: Sample) {
    || (s.thread !in Known(Asked(before)) && |Known(Asked(before))| >= COMMAND_CAP)
    || (s.command !in Known(Asked(before) + [s.thread]) && |Known(Asked(before) + [s.thread])| >= COMMAND_CAP)
  }

  function UserKey(s: Sample): string { s.user + "\0" + s.pid }

  function CommandKeyOf(s: Sample): string { s.command + "\0" + s.pid }

  predicate Unseen(key: Sample -> string, before: seq<Sample>, s: Sample) {
    forall i :: 0 <= i < |before| ==> key(before[i]) != key(s)
  }

  function UserCpu(samples: seq<Sample>): seq<Charge> {
    if samples == [] then [] else
    var before, s := samples[..|samples| - 1], samples[|samples| - 1];
    UserCpu(before) + [Charge(s.user, s.cpu)]
  }

  function CommandCpu(samples: seq<Sample>): seq<Charge> {
    if samples == [] then [] else
    var before, s := samples[..|samples| - 1], samples[|samples| - 1];
    CommandCpu(before) + [Charge(ThreadLabel(before, s), s.cpu)]
  }

  function CommandThreads(samples: seq<Sample>): seq<Charge> {
    if samples == [] then [] else
    var before, s := samples[..|samples| - 1], samples[|samples| - 1];
    CommandThreads(before) + [Charge(ThreadLabel(before, s), 1.0)]
  }

  function UserMemory(samples: seq<Sample>): seq<Charge> {
    if samples == [] then [] else
    var before, s := samples[..|samples| - 1], samples[|samples| - 1];
    UserMemory(before) + if Unseen(UserKey, before, s) then [Charge(s.user, s.res)] else []
  }

  function CommandMemory(samples: seq<Sample>): seq<Charge> {
    if samples == [] then [] else
    var before, s := samples[..|samples| - 1], samples[|samples| - 1];
    CommandMemory(before) + if Unseen(CommandKeyOf, before, s) then [Charge(MemoryLabel(before, s), s.res)] else []
  }

  function FoldedRows(samples: seq<Sample>): nat {
    if samples == [] then 0 else
    var before, s := samples[..|samples| - 1], samples[|samples| - 1];
    FoldedRows(before) + if Folded(before, s) then 1 else 0
  }

  // ----- Conservation -----

  function TotalCpu(samples: seq<Sample>): real {
    if samples == [] then 0.0 else TotalCpu(samples[..|samples| - 1]) + samples[|samples| - 1].cpu
  }

  lemma SumMore(charges: seq<Charge>, c: Charge)
    ensures Sum(charges + [c]) == Sum(charges) + c.amount
  {
    assert (charges + [c])[..|charges|] == charges;
  }

  lemma {:induction false} SumsOfRows(samples: seq<Sample>)
    ensures Sum(UserCpu(samples)) == Sum(CommandCpu(samples)) == TotalCpu(samples)
    ensures Sum(CommandThreads(samples)) == |samples| as real
  {
    if samples == [] {
    } else {
      var before, s := samples[..|samples| - 1], samples[|samples| - 1];
      SumsOfRows(before);
      SumMore(UserCpu(before), Charge(s.user, s.cpu));
      SumMore(CommandCpu(before), Charge(ThreadLabel(before, s), s.cpu));
      SumMore(CommandThreads(before), Charge(ThreadLabel(before, s), 1.0));
    }
  }

  /** CPU by user and CPU by command are the same total, and the threads are the rows. */
  lemma RowsAreConserved(samples: seq<Sample>)
    ensures MapSum(Grouped(UserCpu(samples))) == MapSum(Grouped(CommandCpu(samples))) == TotalCpu(samples)
    ensures MapSum(Grouped(CommandThreads(samples))) == |samples| as real
  {
    SumsOfRows(samples);
    GroupedSum(UserCpu(samples));
    GroupedSum(CommandCpu(samples));
    GroupedSum(CommandThreads(samples));
  }

  /** The memory of the first sample for each key. */
  function Once(key: Sample -> string, samples: seq<Sample>): real {
    if samples == [] then 0.0 else
    var before, s := samples[..|samples| - 1], samples[|samples| - 1];
    Once(key, before) + if Unseen(key, before, s) then s.res else 0.0
  }

  lemma {:induction false} SumsOfMemory(samples: seq<Sample>)
    ensures Sum(UserMemory(samples)) == Once(UserKey, samples)
    ensures Sum(CommandMemory(samples)) == Once(CommandKeyOf, samples)
  {
    if samples == [] {
    } else {
      var before, s := samples[..|samples| - 1], samples[|samples| - 1];
      SumsOfMemory(before);
      SumMore(UserMemory(before), Charge(s.user, s.res));
      SumMore(CommandMemory(before), Charge(MemoryLabel(before, s), s.res));
      assert UserMemory(before) + [] == UserMemory(before) && CommandMemory(before) + [] == CommandMemory(before);
    }
  }

  /** The processes by PID, each with its memory. */
  function Processes(samples: seq<Sample>): map<string, real> {
    if samples == [] then map[]
    else Processes(samples[..|samples| - 1])[samples[|samples| - 1].pid := samples[|samples| - 1].res]
  }

  /** Each PID has one user, one command and one amount of memory. */
  predicate Consistent(samples: seq<Sample>) {
    forall i, j :: 0 <= i < j < |samples| && samples[i].pid == samples[j].pid ==>
      samples[i].user == samples[j].user && samples[i].command == samples[j].command && samples[i].res == samples[j].res
  }

  function Pid(s: Sample): string { s.pid }

  lemma {:induction false} ProcessesHold(samples: seq<Sample>, pid: string)
    requires Consistent(samples)
    ensures pid in Processes(samples) <==> exists i :: 0 <= i < |samples| && samples[i].pid == pid
    ensures forall i :: 0 <= i < |samples| && samples[i].pid == pid ==> pid in Processes(samples) && Processes(samples)[pid] == samples[i].res
  {
    if samples == [] {
    } else {
      ProcessesHold(samples[..|samples| - 1], pid);
    }
  }

  lemma {:induction false} ProcessesOnce(samples: seq<Sample>)
    requires Consistent(samples)
    ensures MapSum(Processes(samples)) == Once(Pid, samples)
  {
    if samples == [] {
    } else {
      var before, s := samples[..|samples| - 1], samples[|samples| - 1];
      ProcessesOnce(before);
      ProcessesHold(before, s.pid);
      if Unseen(Pid, before, s) {
        AddedSum(Processes(before), s.pid, s.res);
      } else {
        var i :| 0 <= i < |before| && before[i].pid == s.pid;
        assert samples[i] == before[i];
        assert Processes(before)[s.pid := s.res] == Processes(before);
      }
    }
  }

  /** Some process is counted as one seen before: its key is that of another process. */
  ghost predicate Hidden(key: Sample -> string, samples: seq<Sample>, i: nat)
    requires i < |samples|
  {
    Unseen(Pid, samples[..i], samples[i]) && !Unseen(key, samples[..i], samples[i])
  }

  /** Only processes without memory are hidden. */
  ghost predicate NothingHidden(key: Sample -> string, samples: seq<Sample>) {
    forall i :: 0 <= i < |samples| && Hidden(key, samples, i) ==> samples[i].res == 0.0
  }

  ghost predicate Fixes(key: Sample -> string, samples: seq<Sample>) {
    forall i, j :: 0 <= i < j < |samples| && samples[i].pid == samples[j].pid ==> key(samples[i]) == key(samples[j])
  }

  lemma {:induction false} OncePerPid(key: Sample -> string, samples: seq<Sample>)
    requires Fixes(key, samples) && forall i :: 0 <= i < |samples| ==> samples[i].res >= 0.0
    ensures Once(key, samples) <= Once(Pid, samples)
    ensures Once(key, samples) == Once(Pid, samples) <==> NothingHidden(key, samples)
  {
    if samples == [] {
    } else {
      OncePerPid(key, samples[..|samples| - 1]);
      HiddenBefore(key, samples);
      UnseenPid(key, samples);
    }
  }

  lemma UnseenPid(key: Sample -> string, samples: seq<Sample>)
    requires samples != [] && Fixes(key, samples)
    ensures var before, s := samples[..|samples| - 1], samples[|samples| - 1];
      Unseen(key, before, s) ==> Unseen(Pid, before, s)
  {
    var n := |samples| - 1;
    var before, s := samples[..n], samples[n];
    if i :| 0 <= i < n && Pid(before[i]) == Pid(s) {
      assert key(samples[i]) == key(samples[n]);
      assert before[i] == samples[i];
    }
  }

  lemma HiddenBefore(key: Sample -> string, samples: seq<Sample>)
    requires samples != []
    ensures var n := |samples| - 1;
      NothingHidden(key, samples) <==> NothingHidden(key, samples[..n]) && (Hidden(key, samples, n) ==> samples[n].res == 0.0)
  {
    var n := |samples| - 1;
    forall i | 0 <= i < n ensures Hidden(key, samples, i) <==> Hidden(key, samples[..n], i) {
      assert samples[..n][..i] == samples[..i];
    }
  }

  /** Memory by user and memory by command each add up to the memory of the processes,
      each process once, exactly when no key hides a process that has memory. */
  lemma MemoryIsCountedOnce(samples: seq<Sample>)
    requires Consistent(samples) && forall i :: 0 <= i < |samples| ==> samples[i].res >= 0.0
    ensures MapSum(Grouped(UserMemory(samples))) == MapSum(Processes(samples)) <==> NothingHidden(UserKey, samples)
    ensures MapSum(Grouped(CommandMemory(samples))) == MapSum(Processes(samples)) <==> NothingHidden(CommandKeyOf, samples)
  {
    SumsOfMemory(samples);
    GroupedSum(UserMemory(samples));
    GroupedSum(CommandMemory(samples));
    ProcessesOnce(samples);
    OncePerPid(UserKey, samples);
    OncePerPid(CommandKeyOf, samples);
  }

  lemma KeysAreApart(a: string, p: string, b: string, q: string)
    requires '\0' !in a && '\0' !in b && a + "\0" + p == b + "\0" + q
    ensures a == b && p == q
  {
    var s, t := a + "\0" + p, b + "\0" + q;
    assert s[|a|] == '\0' && t[|b|] == '\0';
    assert forall i :: 0 <= i < |a| ==> s[i] == a[i];
    assert forall i :: 0 <= i < |b| ==> t[i] == b[i];
    assert |a| == |b|;
    assert s[..|a|] == a && t[..|b|] == b && s[|a| + 1..] == p && t[|b| + 1..] == q;
  }

  lemma PidsAreApart(a: string, p: string, b: string, q: string)
    requires '\0' !in p && '\0' !in q && a + "\0" + p == b + "\0" + q
    ensures a == b && p == q
  {
    var s, t := a + "\0" + p, b + "\0" + q;
    assert s[|a|] == '\0' && t[|b|] == '\0';
    assert forall i :: |a| < i < |s| ==> s[i] == p[i - |a| - 1];
    assert forall i :: |b| < i < |t| ==> t[i] == q[i - |b| - 1];
    assert |a| == |b|;
    assert s[..|a|] == a && t[..|b|] == b && s[|a| + 1..] == p && t[|b| + 1..] == q;
  }

  lemma KeyTellsPid(name: string, p: string, other: string, q: string)
    requires ('\0' !in name && '\0' !in other) || ('\0' !in p && '\0' !in q)
    requires name + "\0" + p == other + "\0" + q
    ensures p == q
  {
    if '\0' !in p && '\0' !in q {
      PidsAreApart(name, p, other, q);
    } else {
      KeysAreApart(name, p, other, q);
    }
  }

  /** Names without NUL, or PIDs without NUL, hide no process. */
  lemma NothingHiddenWithoutNul(samples: seq<Sample>)
    requires
      || (forall i :: 0 <= i < |samples| ==> '\0' !in samples[i].user && '\0' !in samples[i].command)
      || (forall i :: 0 <= i < |samples| ==> '\0' !in samples[i].pid)
    ensures NothingHidden(UserKey, samples) && NothingHidden(CommandKeyOf, samples)
  {
    forall i | 0 <= i < |samples| ensures !Hidden(UserKey, samples, i) && !Hidden(CommandKeyOf, samples, i) {
      var s := samples[i];
      forall j | 0 <= j < i && UserKey(samples[j]) == UserKey(s) ensures samples[j].pid == s.pid {
        KeyTellsPid(samples[j].user, samples[j].pid, s.user, s.pid);
      }
      forall j | 0 <= j < i && CommandKeyOf(samples[j]) == CommandKeyOf(s) ensures samples[j].pid == s.pid {
        KeyTellsPid(samples[j].command, samples[j].pid, s.command, s.pid);
      }
      SeenByPid(UserKey, samples, i);
      SeenByPid(CommandKeyOf, samples, i);
    }
  }

  /** A key that tells the PID hides nothing. */
  lemma SeenByPid(key: Sample -> string, samples: seq<Sample>, i: nat)
    requires i < |samples|
    requires forall j :: 0 <= j < i && key(samples[j]) == key(samples[i]) ==> samples[j].pid == samples[i].pid
    ensures !Hidden(key, samples, i)
  {
    var before := samples[..i];
    if j :| 0 <= j < i && key(before[j]) == key(samples[i]) {
      assert before[j] == samples[j];
      assert Pid(before[j]) == Pid(samples[i]);
    }
  }

  /** Two processes with memory of which only one is counted. */
  lemma NulHidesAProcess()
    ensures var samples := [Sample("a", "b\0c", "x", "x", 0.0, 1.0), Sample("a\0b", "c", "x", "x", 0.0, 1.0)];
      Consistent(samples) && !NothingHidden(UserKey, samples)
  {
    var samples := [Sample("a", "b\0c", "x", "x", 0.0, 1.0), Sample("a\0b", "c", "x", "x", 0.0, 1.0)];
    assert "b\0c" != "c" by { assert |"b\0c"| == 3 && |"c"| == 1; }
    assert UserKey(samples[0]) == "a\0b\0c" == UserKey(samples[1]);
    assert samples[..1][0] == samples[0];
    assert Hidden(UserKey, samples, 1);
  }

  /** Every label of a command is one of the bounded set. */
  lemma {:induction false} ChargedLabels(samples: seq<Sample>)
    ensures forall i :: 0 <= i < |CommandCpu(samples)| ==> CommandCpu(samples)[i].tag in Known(Asked(samples))
    ensures forall i :: 0 <= i < |CommandThreads(samples)| ==> CommandThreads(samples)[i].tag in Known(Asked(samples))
    ensures forall i :: 0 <= i < |CommandMemory(samples)| ==> CommandMemory(samples)[i].tag in Known(Asked(samples))
  {
    if samples == [] {
    } else {
      var before, s := samples[..|samples| - 1], samples[|samples| - 1];
      ChargedLabels(before);
      AskedMore(before, s);
    }
  }

  lemma AskedMore(before: seq<Sample>, s: Sample)
    ensures Known(Asked(before) + [s.thread]) == Known(Asked(before)) + {ThreadLabel(before, s)}
    ensures Known(Asked(before) + [s.thread, s.command]) == Known(Asked(before) + [s.thread]) + {MemoryLabel(before, s)}
  {
    var asked := Asked(before);
    assert (asked + [s.thread])[..|asked|] == asked;
    assert (asked + [s.thread, s.command])[..|asked| + 1] == asked + [s.thread];
  }

  // ----- The aggregate -----

  datatype Figures = Figures(
    cpuByUser: map<string, real>,
    memoryByUser: map<string, real>,
    cpuByCommand: map<string, real>,
    memoryByCommand: map<string, real>,
    threadsByCommand: map<string, real>,
    capped: nat,
    commands: set<string>)

  predicate NoRoom(commands: set<string>, command: string) {
    command !in commands && |commands| >= COMMAND_CAP
  }

  function AddedIf(m: map<string, real>, condition: bool, tag: string, amount: real): map<string, real> {
    if condition then Added(m, tag, amount) else m
  }

  /** The figures with one more sample. */
  function Filed(f: Figures, s: Sample, newUser: bool, newCommand: bool): Figures {
    var thread := Label(f.commands, s.thread);
    var after := f.commands + {thread};
    var memory := Label(after, s.command);
    Figures(
      Added(f.cpuByUser, s.user, s.cpu),
      AddedIf(f.memoryByUser, newUser, s.user, s.res),
      Added(f.cpuByCommand, thread, s.cpu),
      AddedIf(f.memoryByCommand, newCommand, memory, s.res),
      Added(f.threadsByCommand, thread, 1.0),
      if NoRoom(f.commands, s.thread) || NoRoom(after, s.command) then f.capped + 1 else f.capped,
      after + {memory})
  }

  ghost function FiguresOf(samples: seq<Sample>): Figures {
    if samples == [] then Figures(map[], map[], map[], map[], map[], 0, {}) else
    var before, s := samples[..|samples| - 1], samples[|samples| - 1];
    Filed(FiguresOf(before), s, Unseen(UserKey, before, s), Unseen(CommandKeyOf, before, s))
  }

  lemma FiguresMore(before: seq<Sample>, s: Sample)
    ensures FiguresOf(before + [s]) == Filed(FiguresOf(before), s, Unseen(UserKey, before, s), Unseen(CommandKeyOf, before, s))
  {
    assert (before + [s])[..|before|] == before;
  }

  /** Each figure is what its charges come to. */
  lemma {:induction false} FiguresAre(samples: seq<Sample>)
    ensures FiguresOf(samples) == Figures(
      Grouped(UserCpu(samples)), Grouped(UserMemory(samples)),
      Grouped(CommandCpu(samples)), Grouped(CommandMemory(samples)), Grouped(CommandThreads(samples)),
      FoldedRows(samples), Known(Asked(samples)))
  {
    if samples == [] {
    } else {
      var before, s := samples[..|samples| - 1], samples[|samples| - 1];
      FiguresAre(before);
      AskedMore(before, s);
      CpuMore(samples);
      MemoryMore(samples);
    }
  }

  lemma CpuMore(samples: seq<Sample>)
    requires samples != []
    ensures var before, s := samples[..|samples| - 1], samples[|samples| - 1];
      && Grouped(UserCpu(samples)) == Added(Grouped(UserCpu(before)), s.user, s.cpu)
      && Grouped(CommandCpu(samples)) == Added(Grouped(CommandCpu(before)), ThreadLabel(before, s), s.cpu)
      && Grouped(CommandThreads(samples)) == Added(Grouped(CommandThreads(before)), ThreadLabel(before, s), 1.0)
  {
    var before, s := samples[..|samples| - 1], samples[|samples| - 1];
    GroupedMore(UserCpu(before), s.user, s.cpu);
    GroupedMore(CommandCpu(before), ThreadLabel(before, s), s.cpu);
    GroupedMore(CommandThreads(before), ThreadLabel(before, s), 1.0);
  }

  lemma MemoryMore(samples: seq<Sample>)
    requires samples != []
    ensures var before, s := samples[..|samples| - 1], samples[|samples| - 1];
      && Grouped(UserMemory(samples)) == AddedIf(Grouped(UserMemory(before)), Unseen(UserKey, before, s), s.user, s.res)
      && Grouped(CommandMemory(samples))
         == AddedIf(Grouped(CommandMemory(before)), Unseen(CommandKeyOf, before, s), MemoryLabel(before, s), s.res)
  {
    var before, s := samples[..|samples| - 1], samples[|samples| - 1];
    GroupedMore(UserMemory(before), s.user, s.res);
    GroupedMore(CommandMemory(before), MemoryLabel(before, s), s.res);
    assert UserMemory(before) + [] == UserMemory(before) && CommandMemory(before) + [] == CommandMemory(before);
  }

  // ----- What each label is charged, sample by sample -----

  datatype Figure = CpuByUser | MemoryByUser | CpuByCommand | MemoryByCommand | ThreadsByCommand

  /** What the last sample adds to a figure under a label: its CPU and thread to the label
      that its thread asks for, its memory to its user and to the label that its command asks
      for, unless an earlier sample had the same user, or command, and PID. */
  function LastShare(figure: Figure, samples: seq<Sample>, tag: string): real
    requires samples != []
  {
    var n, asked := |samples| - 1, Asked(samples);
    var s := samples[n];
    assert |asked| == 2 * |samples| by { AskedTwice(samples); }
    match figure
    case CpuByUser => if s.user == tag then s.cpu else 0.0
    case CpuByCommand => if LabelAt(asked, 2 * n) == tag then s.cpu else 0.0
    case ThreadsByCommand => if LabelAt(asked, 2 * n) == tag then 1.0 else 0.0
    case MemoryByUser =>
      if s.user == tag && forall j :: 0 <= j < n ==> samples[j].user + "\0" + samples[j].pid != s.user + "\0" + s.pid
      then s.res else 0.0
    case MemoryByCommand =>
      if LabelAt(asked, 2 * n + 1) == tag && forall j :: 0 <= j < n ==> samples[j].command + "\0" + samples[j].pid != s.command + "\0" + s.pid
      then s.res else 0.0
  }

  lemma {:induction false} AskedTwice(samples: seq<Sample>)
    ensures |Asked(samples)| == 2 * |samples|
  {
    if samples == [] {
    } else {
      AskedTwice(samples[..|samples| - 1]);
    }
  }

  function Share(figure: Figure, samples: seq<Sample>, tag: string): real {
    if samples == [] then 0.0 else Share(figure, samples[..|samples| - 1], tag) + LastShare(figure, samples, tag)
  }

  function Charges(figure: Figure, samples: seq<Sample>): seq<Charge> {
    match figure
    case CpuByUser => UserCpu(samples)
    case MemoryByUser => UserMemory(samples)
    case CpuByCommand => CommandCpu(samples)
    case MemoryByCommand => CommandMemory(samples)
    case ThreadsByCommand => CommandThreads(samples)
  }

  lemma SumForMore(charges: seq<Charge>, c: Charge, tag: string)
    ensures SumFor(charges + [c], tag) == SumFor(charges, tag) + if c.tag == tag then c.amount else 0.0
  {
    assert (charges + [c])[..|charges|] == charges;
  }

  lemma LastLabels(samples: seq<Sample>)
    requires samples != []
    ensures var before, s := samples[..|samples| - 1], samples[|samples| - 1];
      && |Asked(samples)| == 2 * |samples|
      && LabelAt(Asked(samples), 2 * |samples| - 2) == ThreadLabel(before, s)
      && LabelAt(Asked(samples), 2 * |samples| - 1) == MemoryLabel(before, s)
  {
    var before, s := samples[..|samples| - 1], samples[|samples| - 1];
    AskedTwice(samples);
    AskedTwice(before);
    var asked := Asked(samples);
    assert asked == Asked(before) + [s.thread, s.command];
    assert asked[..|asked| - 2] == Asked(before) && asked[..|asked| - 1] == Asked(before) + [s.thread];
  }

  lemma LastUnseen(samples: seq<Sample>)
    requires samples != []
    ensures var n, s := |samples| - 1, samples[|samples| - 1];
      && (Unseen(UserKey, samples[..n], s) <==>
           forall j :: 0 <= j < n ==> samples[j].user + "\0" + samples[j].pid != s.user + "\0" + s.pid)
      && (Unseen(CommandKeyOf, samples[..n], s) <==>
           forall j :: 0 <= j < n ==> samples[j].command + "\0" + samples[j].pid != s.command + "\0" + s.pid)
  {
    var n, s := |samples| - 1, samples[|samples| - 1];
    assert forall j :: 0 <= j < n ==> samples[..n][j] == samples[j];
  }

  ghost predicate OneShareMore(figure: Figure, samples: seq<Sample>, tag: string)
    requires samples != []
  {
    SumFor(Charges(figure, samples), tag) == SumFor(Charges(figure, samples[..|samples| - 1]), tag) + LastShare(figure, samples, tag)
  }

  lemma CpuShares(samples: seq<Sample>, tag: string)
    requires samples != []
    ensures OneShareMore(CpuByUser, samples, tag) && OneShareMore(CpuByCommand, samples, tag) && OneShareMore(ThreadsByCommand, samples, tag)
  {
    var before, s := samples[..|samples| - 1], samples[|samples| - 1];
    LastLabels(samples);
    SumForMore(UserCpu(before), Charge(s.user, s.cpu), tag);
    SumForMore(CommandCpu(before), Charge(ThreadLabel(before, s), s.cpu), tag);
    SumForMore(CommandThreads(before), Charge(ThreadLabel(before, s), 1.0), tag);
  }

  lemma UserMemoryShares(samples: seq<Sample>, tag: string)
    requires samples != []
    ensures OneShareMore(MemoryByUser, samples, tag)
  {
    var before, s := samples[..|samples| - 1], samples[|samples| - 1];
    LastUnseen(samples);
    SumForMore(UserMemory(before), Charge(s.user, s.res), tag);
    assert UserMemory(before) + [] == UserMemory(before);
  }

  lemma CommandMemoryShares(samples: seq<Sample>, tag: string)
    requires samples != []
    ensures OneShareMore(MemoryByCommand, samples, tag)
  {
    var before, s := samples[..|samples| - 1], samples[|samples| - 1];
    LastLabels(samples);
    LastUnseen(samples);
    SumForMore(CommandMemory(before), Charge(MemoryLabel(before, s), s.res), tag);
    assert CommandMemory(before) + [] == CommandMemory(before);
  }

  lemma {:induction false} SharesAreCharged(figure: Figure, samples: seq<Sample>, tag: string)
    ensures SumFor(Charges(figure, samples), tag) == Share(figure, samples, tag)
  {
    if samples == [] {
    } else {
      SharesAreCharged(figure, samples[..|samples| - 1], tag);
      CpuShares(samples, tag);
      UserMemoryShares(samples, tag);
      CommandMemoryShares(samples, tag);
      assert OneShareMore(figure, samples, tag);
    }
  }

  function FigureIn(figure: Figure, f: Figures): map<string, real> {
    match figure
    case CpuByUser => f.cpuByUser
    case MemoryByUser => f.memoryByUser
    case CpuByCommand => f.cpuByCommand
    case MemoryByCommand => f.memoryByCommand
    case ThreadsByCommand => f.threadsByCommand
  }

  /** Under each label each figure is the sum of what the samples add to it. */
  lemma FiguresByLabel(figure: Figure, samples: seq<Sample>, tag: string)
    ensures var m := FigureIn(figure, FiguresOf(samples));
      (if tag in m then m[tag] else 0.0) == Share(figure, samples, tag)
  {
    FiguresAre(samples);
    SharesAreCharged(figure, samples, tag);
    GroupedAt(Charges(figure, samples), tag);
  }

  /** The rows of which a name got another label. */
  function Renamed(samples: seq<Sample>): nat {
    if samples == [] then 0 else
    var n, asked := |samples| - 1, Asked(samples);
    assert |asked| == 2 * |samples| by { AskedTwice(samples); }
    Renamed(samples[..n]) + if LabelAt(asked, 2 * n) != samples[n].thread || LabelAt(asked, 2 * n + 1) != samples[n].command then 1 else 0
  }

  /** Unless a process has the name of the overflow label, these are the rows counted as
      capped. */
  lemma {:induction false} CappedAreRenamed(samples: seq<Sample>)
    requires forall i :: 0 <= i < |samples| ==> samples[i].thread != "__other__" && samples[i].command != "__other__"
    ensures FoldedRows(samples) == Renamed(samples)
  {
    if samples == [] {
    } else {
      CappedAreRenamed(samples[..|samples| - 1]);
      LastLabels(samples);
    }
  }

  datatype Stats = Stats(commands: nat, maxCommands: nat, capped: nat)

  class ProcessAggregate {
    var cpuByUser: map<string, real>
    var memoryByUser: map<string, real>
    var cpuByCommand: map<string, real>
    var memoryByCommand: map<string, real>
    var threadsByCommand: map<string, real>
    var capped: nat
    var commands: set<string>

    ghost function Contents(): Figures
      reads this
    {
      Figures(cpuByUser, memoryByUser, cpuByCommand, memoryByCommand, threadsByCommand, capped, commands)
    }

    constructor ()
      ensures Contents() == FiguresOf([])
    {
      cpuByUser, memoryByUser, cpuByCommand, memoryByCommand, threadsByCommand := map[], map[], map[], map[], map[];
      capped, commands := 0, {};
    }

    method GetStats(ghost samples: seq<Sample>) returns (r: Stats)
      requires Contents() == FiguresOf(samples)
      ensures r.maxCommands == COMMAND_CAP && r.commands <= r.maxCommands + 1
      ensures r.commands == |Known(Asked(samples))| && r.capped == FoldedRows(samples)
    {
      FiguresAre(samples);
      LabelsAreBounded(Asked(samples));
      return Stats(|commands|, COMMAND_CAP, capped);
    }

    /** The label a command is filed under, and whether the cap folded it. */
    method CommandKey(command: string) returns (mine: string, folded: bool)
      modifies this`commands
      ensures mine == Label(old(commands), command)
      ensures folded <==> NoRoom(old(commands), command)
      ensures commands == old(commands) + {mine}
    {
      if command in commands {
        assert commands + {command} == commands;
        return command, false;
      }
      if |commands| >= COMMAND_CAP {
        commands := commands + {OTHER};
        return OTHER, true;
      }
      commands := commands + {command};
      return command, false;
    }

    /** Files one more sample; whether its memory counts is told by the keys seen so far. */
    method File(s: Sample, newUser: bool, newCommand: bool)
      modifies this
      ensures Contents() == Filed(old(Contents()), s, newUser, newCommand)
    {
      var thread, threadFolded := CommandKey(s.thread);
      var memory, memoryFolded := CommandKey(s.command);
      if threadFolded || memoryFolded {
        capped := capped + 1;
      }
      cpuByUser := Added(cpuByUser, s.user, s.cpu);
      cpuByCommand := Added(cpuByCommand, thread, s.cpu);
      threadsByCommand := Added(threadsByCommand, thread, 1.0);
      FileMemory(s, memory, newUser, newCommand);
    }

    method FileMemory(s: Sample, memory: string, newUser: bool, newCommand: bool)
      modifies this`memoryByUser, this`memoryByCommand
      ensures memoryByUser == AddedIf(old(memoryByUser), newUser, s.user, s.res)
      ensures memoryByCommand == AddedIf(old(memoryByCommand), newCommand, memory, s.res)
    {
      if newUser {
        memoryByUser := Added(memoryByUser, s.user, s.res);
      }
      if newCommand {
        memoryByCommand := Added(memoryByCommand, memory, s.res);
      }
    }
  }

  /** Folds the process table into an aggregate; a row that does not read is skipped. */
  method ParseActivityDetails(reader: Reader, rows: seq<RawRow>) returns (total: ProcessAggregate)
    ensures fresh(total) && total.Contents() == FiguresOf(Samples(reader, rows))
  {
    total := new ProcessAggregate();
    var seen := Seen({}, {});
    ghost var samples: seq<Sample> := [];
    var i := 0;
    while i < |rows|
      invariant 0 <= i <= |rows| && fresh(total)
      invariant samples == Samples(reader, rows[..i])
      invariant total.Contents() == FiguresOf(samples) && seen.Are(samples)
    {
      SamplesMore(reader, rows, i);
      seen, samples := FileRow(total, SampleOf(reader, rows[i]), seen, samples);
      i := i + 1;
    }
    assert rows[..i] == rows;
  }

  lemma SamplesMore(reader: Reader, rows: seq<RawRow>, i: nat)
    requires i < |rows|
    ensures var s := SampleOf(reader, rows[i]);
      Samples(reader, rows[..i + 1]) == if s.Some? then Samples(reader, rows[..i]) + [s.value] else Samples(reader, rows[..i])
  {
    assert rows[..i + 1][..i] == rows[..i];
  }

  /** The keys of user and PID and of command and PID seen so far. */
  datatype Seen = Seen(users: set<string>, commands: set<string>) {
    ghost predicate Are(samples: seq<Sample>) {
      users == KeysOf(UserKey, samples) && commands == KeysOf(CommandKeyOf, samples)
    }
  }

  /** Files the sample of a row, if it has one, its memory only under keys not seen
      before. */
  method FileRow(total: ProcessAggregate, sample: Option<Sample>, seen: Seen, ghost samples: seq<Sample>)
    returns (after: Seen, ghost more: seq<Sample>)
    requires total.Contents() == FiguresOf(samples) && seen.Are(samples)
    modifies total
    ensures more == if sample.Some? then samples + [sample.value] else samples
    ensures total.Contents() == FiguresOf(more) && after.Are(more)
  {
    after, more := seen, samples;
    if sample.Some? {
      var s := sample.value;
      more := samples + [s];
      KeysMore(UserKey, samples, s);
      KeysMore(CommandKeyOf, samples, s);
      FiguresMore(samples, s);
      total.File(s, UserKey(s) !in seen.users, CommandKeyOf(s) !in seen.commands);
      after := Seen(seen.users + {UserKey(s)}, seen.commands + {CommandKeyOf(s)});
    }
  }

  ghost function KeysOf(key: Sample -> string, samples: seq<Sample>): set<string> {
    set i | 0 <= i < |samples| :: key(samples[i])
  }

  lemma KeysMore(key: Sample -> string, before: seq<Sample>, s: Sample)
    ensures key(s) !in KeysOf(key, before) <==> Unseen(key, before, s)
    ensures KeysOf(key, before + [s]) == KeysOf(key, before) + {key(s)}
  {
    var samples := before + [s];
    assert samples[|before|] == s;
    forall i | 0 <= i < |before| ensures key(before[i]) in KeysOf(key, samples) {
      assert samples[i] == before[i];
    }
    forall k | k in KeysOf(key, samples) ensures k in KeysOf(key, before) + {key(s)} {
      var i :| 0 <= i < |samples| && k == key(samples[i]);
    }
  }
}
