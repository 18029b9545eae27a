/** `scripts/ensure-dev-ports-core.js`: who really holds a socket whose owner has died. */
module DevPorts {
  import opened Text
  import opened Finite

  /** One process of the snapshot, in the order of the table; parent 0 means unknown. */
  datatype Process = Process(pid: int, name: string, cmd: string, parent: int)

  ghost predicate HasParent(table: seq<Process>, pid: int, parent: int) {
    exists k :: 0 <= k < |table| && table[k].pid == pid && table[k].parent == parent
  }

  /** A chain of at least one parent link, each from a process of the table. */
  ghost predicate IsChain(table: seq<Process>, chain: seq<int>) {
    && |chain| >= 2
    && forall i :: 0 <= i < |chain| - 1 ==> HasParent(table, chain[i], chain[i + 1])
  }

  /** pid is a child, a grandchild, ... of the dead process. */
  ghost predicate Descends(table: seq<Process>, pid: int, dead: int) {
    exists chain :: IsChain(table, chain) && chain[0] == pid && chain[|chain| - 1] == dead
  }

  lemma ChildDescends(table: seq<Process>, pid: int, parent: int, dead: int)
    requires HasParent(table, pid, parent) && (parent == dead || Descends(table, parent, dead))
    ensures Descends(table, pid, dead)
  {
    if parent == dead {
      assert IsChain(table, [pid, dead]);
    } else {
      var chain :| IsChain(table, chain) && chain[0] == parent && chain[|chain| - 1] == dead;
      var longer := [pid] + chain;
      assert forall i :: 0 < i < |longer| ==> longer[i] == chain[i - 1];
      assert IsChain(table, longer);
    }
  }

  /** A set of pids that contains every child of the dead process and of its own members contains
      every descendant. */
  lemma {:induction false} ClosedContainsChain(table: seq<Process>, heirs: seq<int>, dead: int, chain: seq<int>)
    requires forall pid, parent :: HasParent(table, pid, parent) && (parent == dead || parent in heirs) ==> pid in heirs
    requires IsChain(table, chain) && chain[|chain| - 1] == dead
    ensures chain[0] in heirs
  {
    if |chain| > 2 {
      assert forall i :: 0 <= i < |chain| - 1 ==> chain[1..][i] == chain[i + 1];
      ClosedContainsChain(table, heirs, dead, chain[1..]);
    }
    assert HasParent(table, chain[0], chain[1]);
  }

  ghost function Pids(table: seq<Process>): set<int> {
    set k | 0 <= k < |table| :: table[k].pid
  }

  /** One round: every child of the frontier that is not yet an heir becomes one. */
  method NextGeneration(table: seq<Process>, dead: int, frontier: seq<int>, before: seq<int>)
    returns (heirs: seq<int>, next: seq<int>)
    requires NoRepeats(before) && forall p :: p in before ==> p in Pids(table) && Descends(table, p, dead)
    requires forall p :: p in frontier ==> p == dead || p in before
    ensures heirs == before + next && NoRepeats(heirs)
    ensures forall p :: p in heirs ==> p in Pids(table) && Descends(table, p, dead)
    ensures forall pid, parent :: HasParent(table, pid, parent) && parent in frontier ==> pid in heirs
  {
    heirs, next := before, [];
    for k := 0 to |table|
      invariant heirs == before + next && NoRepeats(heirs)
      invariant forall p :: p in heirs ==> p in Pids(table) && Descends(table, p, dead)
      invariant forall j :: 0 <= j < k && table[j].parent in frontier ==> table[j].pid in heirs
    {
      var pid, parent := table[k].pid, table[k].parent;
      if parent in frontier && pid !in heirs {
        assert HasParent(table, pid, parent);
        ChildDescends(table, pid, parent, dead);
        heirs := heirs + [pid];
        next := next + [pid];
      }
    }
  }

  /** Terminates on any table, cyclic parent links included, and finds exactly the descendants. */
  method OrphanHeirs(table: seq<Process>, dead: int) returns (heirs: seq<int>)
    ensures NoRepeats(heirs)
    ensures forall pid :: pid in heirs <==> Descends(table, pid, dead)
    ensures forall pid :: pid in heirs ==> pid in Pids(table)
  {
    heirs := [];
    var frontier := [dead];
    while |frontier| > 0
      invariant NoRepeats(heirs) && forall p :: p in heirs ==> p in Pids(table) && Descends(table, p, dead)
      invariant forall p :: p in frontier ==> p == dead || p in heirs
      invariant |heirs| <= |Pids(table)|
      // the children of everything that has left the frontier are heirs
      invariant forall pid, parent :: HasParent(table, pid, parent) && (parent == dead || parent in heirs) ==>
                  pid in heirs || parent in frontier
      decreases |Pids(table)| - |heirs|, |frontier|
    {
      ghost var before := heirs;
      heirs, frontier := NextGeneration(table, dead, frontier, heirs);
      assert forall p :: p in heirs ==> p in Pids(table);
      NoRepeatsFits(heirs, Pids(table));
      forall pid, parent | HasParent(table, pid, parent) && (parent == dead || parent in heirs)
        ensures pid in heirs || parent in frontier
      {
        if parent in heirs && parent !in before { assert parent in frontier; }
      }
    }
    forall pid | Descends(table, pid, dead) ensures pid in heirs {
      var chain :| IsChain(table, chain) && chain[0] == pid && chain[|chain| - 1] == dead;
      ClosedContainsChain(table, heirs, dead, chain);
    }
  }

  // ----- expandDeadOwners

  const SHELL_HOSTS: seq<string> :=
    ["conhost.exe", "openconsole.exe", "windowsterminal.exe", "powershell.exe", "pwsh.exe", "cmd.exe", "explorer.exe"]

  const DOCKER_NAMES: seq<string> := ["docker", "vmmem", "vpnkit", "wslrelay"]

  const DOCKER_COMMANDS: seq<string> := ["docker", "vpnkit", "wslrelay"]

  predicate OneOf(s: string, names: seq<string>) {
    names != [] && (s == names[0] || OneOf(s, names[1..]))
  }

  predicate Contains(s: string, part: string) {
    part <= s || (s != "" && Contains(s[1..], part))
  }

  predicate Mentions(s: string, parts: seq<string>) {
    parts != [] && (Contains(s, parts[0]) || Mentions(s, parts[1..]))
  }

  /** Console and shell hosts are somebody's window, never the holder of the socket. */
  predicate IsShellHost(name: string) {
    OneOf(Lower(name), SHELL_HOSTS)
  }

  predicate IsDockerProcess(name: string, cmd: string) {
    Mentions(Lower(name), DOCKER_NAMES) || Mentions(Lower(cmd), DOCKER_COMMANDS)
  }

  /** How process names are told apart; nothing below depends on the particular names. */
  datatype Names = Names(isShellHost: string -> bool, isDocker: (string, string) -> bool)

  const KNOWN_NAMES := Names(IsShellHost, IsDockerProcess)

  // ----- the names, letter by letter

  predicate HasPart(s: string, part: string, i: nat) {
    i + |part| <= |s| && s[i..i + |part|] == part
  }

  lemma {:induction false} ContainsIff(s: string, part: string)
    ensures Contains(s, part) <==> exists i :: 0 <= i <= |s| && HasPart(s, part, i)
  {
    assert part <= s <==> HasPart(s, part, 0);
    if s != "" {
      ContainsIff(s[1..], part);
      forall i | 0 <= i < |s| ensures HasPart(s[1..], part, i) <==> HasPart(s, part, i + 1) {
        if i + |part| <= |s| - 1 { assert s[1..][i..i + |part|] == s[i + 1..i + 1 + |part|]; }
      }
      if i :| 0 <= i <= |s| && HasPart(s, part, i) && i > 0 { assert HasPart(s[1..], part, i - 1); }
      if i :| 0 <= i <= |s[1..]| && HasPart(s[1..], part, i) { assert HasPart(s, part, i + 1); }
    }
  }

  lemma {:induction false} OneOfIff(s: string, names: seq<string>)
    ensures OneOf(s, names) <==> exists k :: 0 <= k < |names| && s == names[k]
  {
    if names != [] {
      OneOfIff(s, names[1..]);
      assert forall k :: 0 < k < |names| ==> names[k] == names[1..][k - 1];
    }
  }

  lemma {:induction false} MentionsIff(s: string, parts: seq<string>)
    ensures Mentions(s, parts) <==> exists k :: 0 <= k < |parts| && Contains(s, parts[k])
  {
    if parts != [] {
      MentionsIff(s, parts[1..]);
      assert forall k :: 0 < k < |parts| ==> parts[k] == parts[1..][k - 1];
    }
  }

  predicate LowerWords(words: seq<string>) {
    forall k :: 0 <= k < |words| ==> IsLowerWord(words[k])
  }

  lemma OneOfSpells(name: string, words: seq<string>)
    requires LowerWords(words)
    ensures OneOf(Lower(name), words) <==> exists k :: 0 <= k < |words| && Spells(name, words[k])
  {
    OneOfIff(Lower(name), words);
    forall k | 0 <= k < |words| ensures Lower(name) == words[k] <==> Spells(name, words[k]) {
      LowerSpells(name, words[k]);
    }
  }

  lemma ConsolesAreLower()
    ensures IsLowerWord("conhost.exe") && IsLowerWord("openconsole.exe") && IsLowerWord("windowsterminal.exe")
  {
  }

  lemma ShellsAreLower()
    ensures IsLowerWord("powershell.exe") && IsLowerWord("pwsh.exe") && IsLowerWord("cmd.exe")
    ensures IsLowerWord("explorer.exe")
  {
  }

  lemma HostsAreLower()
    ensures LowerWords(SHELL_HOSTS)
  {
    ConsolesAreLower();
    ShellsAreLower();
  }

  /** The seven hosts of consoles and shells, in any case. */
  lemma ShellHostIff(name: string)
    ensures var hosts := ["conhost.exe", "openconsole.exe", "windowsterminal.exe", "powershell.exe", "pwsh.exe",
                          "cmd.exe", "explorer.exe"];
            KNOWN_NAMES.isShellHost(name) <==> exists k :: 0 <= k < |hosts| && Spells(name, hosts[k])
  {
    HostsAreLower();
    OneOfSpells(name, SHELL_HOSTS);
  }

  ghost predicate SpellsPart(s: string, word: string) {
    exists i :: 0 <= i <= |s| && SpellsAt(s, word, i)
  }

  ghost predicate SpellsAt(s: string, word: string, i: nat) {
    i + |word| <= |s| && Spells(s[i..i + |word|], word)
  }

  lemma ContainsSpells(s: string, word: string)
    requires IsLowerWord(word)
    ensures Contains(Lower(s), word) <==> SpellsPart(s, word)
  {
    ContainsIff(Lower(s), word);
    forall i | 0 <= i <= |s| ensures HasPart(Lower(s), word, i) <==> SpellsAt(s, word, i) {
      if i + |word| <= |s| {
        assert Lower(s)[i..i + |word|] == Lower(s[i..i + |word|]);
        LowerSpells(s[i..i + |word|], word);
      }
    }
  }

  lemma MentionsSpells(s: string, words: seq<string>)
    requires LowerWords(words)
    ensures Mentions(Lower(s), words) <==> exists k :: 0 <= k < |words| && SpellsPart(s, words[k])
  {
    MentionsIff(Lower(s), words);
    forall k | 0 <= k < |words| ensures Contains(Lower(s), words[k]) <==> SpellsPart(s, words[k]) {
      ContainsSpells(s, words[k]);
    }
  }

  /** Docker processes by a part of their name or of their command line, in any case. */
  lemma DockerIff(name: string, cmd: string)
    ensures var names, commands := ["docker", "vmmem", "vpnkit", "wslrelay"], ["docker", "vpnkit", "wslrelay"];
            KNOWN_NAMES.isDocker(name, cmd) <==>
              || (exists k :: 0 <= k < |names| && SpellsPart(name, names[k]))
              || (exists k :: 0 <= k < |commands| && SpellsPart(cmd, commands[k]))
  {
    assert LowerWords(DOCKER_NAMES) && LowerWords(DOCKER_COMMANDS);
    MentionsSpells(name, DOCKER_NAMES);
    MentionsSpells(cmd, DOCKER_COMMANDS);
  }

  datatype Holder = Holder(port: int, pid: int, name: string, cmd: string, isDocker: bool, alive: bool, heirs: seq<int>)

  function Find(table: seq<Process>, pid: int): (p: Process)
    requires pid in Pids(table)
    ensures p in table && p.pid == pid
  {
    if table[0].pid == pid then table[0]
    else
      assert forall k :: 1 <= k < |table| ==> table[k] == table[1..][k - 1];
      assert pid in Pids(table[1..]);
      Find(table[1..], pid)
  }

  /** A non-shell descendant of a dead owner: it may hold the inherited socket. */
  ghost predicate MayHold(names: Names, table: seq<Process>, pid: int, owner: Holder) {
    && !owner.alive && Descends(table, pid, owner.pid)
    && pid in Pids(table) && !names.isShellHost(Find(table, pid).name)
  }

  /** The (port, pid) pairs a list of holders names. */
  function Keys(out: seq<Holder>): set<(int, int)> {
    set j | 0 <= j < |out| :: (out[j].port, out[j].pid)
  }

  /** The original rows stay in front and change only by gaining heirs; a live owner gains none. */
  ghost predicate KeepsOwners(rows: seq<Holder>, out: seq<Holder>) {
    && |rows| <= |out|
    && (forall i :: 0 <= i < |rows| ==> out[i] == rows[i].(heirs := out[i].heirs) && rows[i].heirs <= out[i].heirs)
    && (forall i :: 0 <= i < |rows| && rows[i].alive ==> out[i] == rows[i])
  }

  /** Row j was added for a dead owner on its port, which now names it as an heir. */
  ghost predicate AddedFor(names: Names, rows: seq<Holder>, table: seq<Process>, out: seq<Holder>, j: nat, i: nat)
    requires i < |rows| <= |out| && j < |out|
  {
    && MayHold(names, table, out[j].pid, rows[i])
    && out[j] == HeirRow(names, rows[i].port, Find(table, out[j].pid))
    && out[j].pid in out[i].heirs
  }

  ghost predicate AddsOnlyHeirs(names: Names, rows: seq<Holder>, table: seq<Process>, out: seq<Holder>)
    requires |rows| <= |out|
  {
    forall j :: |rows| <= j < |out| ==> HasOwner(names, rows, table, out, j)
  }

  ghost predicate HasOwner(names: Names, rows: seq<Holder>, table: seq<Process>, out: seq<Holder>, j: nat)
    requires |rows| <= |out| && j < |out|
  {
    exists i :: 0 <= i < |rows| && AddedFor(names, rows, table, out, j, i)
  }

  /** No added row repeats a (port, pid) pair, neither of an owner nor of another added row. */
  ghost predicate AddsNoDuplicates(rows: seq<Holder>, out: seq<Holder>)
    requires |rows| <= |out|
  {
    forall i, j :: 0 <= i < j < |out| && |rows| <= j ==> out[i].port != out[j].port || out[i].pid != out[j].pid
  }

  /** An owner gains non-shell descendants of its own and nothing else. */
  ghost predicate GainsOnlyHeirs(names: Names, rows: seq<Holder>, table: seq<Process>, out: seq<Holder>)
    requires |rows| <= |out|
  {
    forall i, k :: 0 <= i < |rows| && |rows[i].heirs| <= k < |out[i].heirs| ==>
        MayHold(names, table, out[i].heirs[k], rows[i])
  }

  function HeirRow(names: Names, port: int, p: Process): Holder {
    Holder(port, p.pid, p.name, p.cmd, names.isDocker(p.name, p.cmd), true, [])
  }

  ghost predicate Sound(names: Names, rows: seq<Holder>, table: seq<Process>, out: seq<Holder>) {
    && KeepsOwners(rows, out) && GainsOnlyHeirs(names, rows, table, out)
    && AddsOnlyHeirs(names, rows, table, out) && AddsNoDuplicates(rows, out)
  }

  /** `row.heirs.push(heir); out.push({...})`. */
  function Push(names: Names, out: seq<Holder>, i: nat, p: Process): (more: seq<Holder>)
    requires i < |out|
    ensures |more| == |out| + 1 && more[|out|] == HeirRow(names, out[i].port, p)
    ensures forall j :: 0 <= j < |out| ==>
              more[j] == if j == i then out[i].(heirs := out[i].heirs + [p.pid]) else out[j]
  {
    out[i := out[i].(heirs := out[i].heirs + [p.pid])] + [HeirRow(names, out[i].port, p)]
  }

  lemma PushKeys(names: Names, out: seq<Holder>, i: nat, p: Process)
    requires i < |out|
    ensures Keys(Push(names, out, i, p)) == Keys(out) + {(out[i].port, p.pid)}
  {
    var more := Push(names, out, i, p);
    forall key | key in Keys(out) ensures key in Keys(more) {
      var j :| 0 <= j < |out| && key == (out[j].port, out[j].pid);
      assert (more[j].port, more[j].pid) == key;
    }
    assert (more[|out|].port, more[|out|].pid) == (out[i].port, p.pid);
    forall key | key in Keys(more) ensures key in Keys(out) + {(out[i].port, p.pid)} {
      var j :| 0 <= j < |more| && key == (more[j].port, more[j].pid);
      if j < |out| { assert (out[j].port, out[j].pid) == key; }
    }
  }

  lemma PushAddsOnlyHeirs(names: Names, rows: seq<Holder>, table: seq<Process>, out: seq<Holder>, i: nat, heir: int)
    requires KeepsOwners(rows, out) && AddsOnlyHeirs(names, rows, table, out)
    requires i < |rows| && MayHold(names, table, heir, rows[i])
    ensures AddsOnlyHeirs(names, rows, table, Push(names, out, i, Find(table, heir)))
  {
    var more := Push(names, out, i, Find(table, heir));
    forall j | |rows| <= j < |more| ensures HasOwner(names, rows, table, more, j) {
      if j < |out| {
        assert HasOwner(names, rows, table, out, j);
        var k :| 0 <= k < |rows| && AddedFor(names, rows, table, out, j, k);
        assert AddedFor(names, rows, table, more, j, k);
      } else {
        assert heir in more[i].heirs;
        assert AddedFor(names, rows, table, more, j, i);
      }
    }
  }

  lemma PushAddsNoDuplicates(names: Names, rows: seq<Holder>, out: seq<Holder>, i: nat, p: Process)
    requires KeepsOwners(rows, out) && AddsNoDuplicates(rows, out)
    requires i < |rows| && (out[i].port, p.pid) !in Keys(out)
    ensures AddsNoDuplicates(rows, Push(names, out, i, p))
  {
    var more := Push(names, out, i, p);
    forall j, k | 0 <= j < k < |more| && |rows| <= k
      ensures more[j].port != more[k].port || more[j].pid != more[k].pid
    {
      assert out[j].port == more[j].port && out[j].pid == more[j].pid;
      assert (out[j].port, out[j].pid) in Keys(out);
    }
  }

  lemma PushGainsOnlyHeirs(names: Names, rows: seq<Holder>, table: seq<Process>, out: seq<Holder>, i: nat, p: Process)
    requires KeepsOwners(rows, out) && GainsOnlyHeirs(names, rows, table, out)
    requires i < |rows| && MayHold(names, table, p.pid, rows[i])
    ensures GainsOnlyHeirs(names, rows, table, Push(names, out, i, p))
  {
    var more := Push(names, out, i, p);
    forall j, k | 0 <= j < |rows| && |rows[j].heirs| <= k < |more[j].heirs|
      ensures MayHold(names, table, more[j].heirs[k], rows[j])
    {
      if k < |out[j].heirs| {
        assert more[j].heirs[k] == out[j].heirs[k];
      } else {
        assert j == i && more[j].heirs[k] == p.pid;
      }
    }
  }

  lemma PushIsSound(names: Names, rows: seq<Holder>, table: seq<Process>, out: seq<Holder>, i: nat, heir: int)
    requires Sound(names, rows, table, out) && i < |rows| && MayHold(names, table, heir, rows[i])
    requires (out[i].port, heir) !in Keys(out)
    ensures Sound(names, rows, table, Push(names, out, i, Find(table, heir)))
  {
    PushGainsOnlyHeirs(names, rows, table, out, i, Find(table, heir));
    PushAddsOnlyHeirs(names, rows, table, out, i, heir);
    PushAddsNoDuplicates(names, rows, out, i, Find(table, heir));
  }

  /** Every non-shell descendant of the owner is listed on its port. */
  ghost predicate Covers(names: Names, table: seq<Process>, owner: Holder, out: seq<Holder>) {
    forall pid :: MayHold(names, table, pid, owner) ==> (owner.port, pid) in Keys(out)
  }

  /** The rows one dead owner contributes. */
  method ExpandOne(
    names: Names, ghost rows: seq<Holder>, table: seq<Process>, out0: seq<Holder>, seen0: set<(int, int)>, i: nat)
    returns (out: seq<Holder>, seen: set<(int, int)>)
    requires Sound(names, rows, table, out0) && seen0 == Keys(out0) && i < |rows| && !out0[i].alive
    ensures Sound(names, rows, table, out) && seen == Keys(out) && Keys(out0) <= Keys(out)
    ensures Covers(names, table, rows[i], out)
  {
    out, seen := out0, seen0;
    var heirs := OrphanHeirs(table, out[i].pid);
    for k := 0 to |heirs|
      invariant Sound(names, rows, table, out) && seen == Keys(out) && Keys(out0) <= Keys(out)
      invariant forall j :: 0 <= j < k && MayHold(names, table, heirs[j], rows[i]) ==>
          (rows[i].port, heirs[j]) in Keys(out)
    {
      var heir := heirs[k];
      assert heir in heirs;
      assert out[i].port == rows[i].port;
      var info := Find(table, heir);
      if names.isShellHost(info.name) || (out[i].port, heir) in seen { continue; }
      PushIsSound(names, rows, table, out, i, heir);
      PushKeys(names, out, i, info);
      seen := seen + {(out[i].port, heir)};
      out := Push(names, out, i, info);
    }
  }

  lemma EmptyTableHoldsNothing(names: Names, rows: seq<Holder>, out: seq<Holder>)
    ensures forall i :: 0 <= i < |rows| ==> Covers(names, [], rows[i], out)
  {
    assert Pids([]) == {};
  }

  /** The loop runs over `out` while rows are appended to it, and still ends: appended rows are alive. */
  method ExpandOwners(names: Names, rows: seq<Holder>, table: seq<Process>) returns (out: seq<Holder>)
    ensures Sound(names, rows, table, out)
    ensures forall i :: 0 <= i < |rows| ==> Covers(names, table, rows[i], out)
    ensures table == [] ==> out == rows
  {
    out := rows;
    if |table| == 0 {
      EmptyTableHoldsNothing(names, rows, out);
      return;
    }
    var seen := Keys(out);
    var i := 0;
    while i < |out|
      invariant 0 <= i <= |out| && Sound(names, rows, table, out) && seen == Keys(out)
      invariant forall k :: 0 <= k < i && k < |rows| ==> Covers(names, table, rows[k], out)
      decreases if i < |rows| then |rows| - i else 0, |out| - i
    {
      if !out[i].alive {
        AddedRowsAreAlive(names, rows, table, out, i);
        out, seen := ExpandOne(names, rows, table, out, seen, i);
      }
      i := i + 1;
    }
  }

  /** With the shell hosts and Docker processes of the script. */
  method ExpandDeadOwners(rows: seq<Holder>, table: seq<Process>) returns (out: seq<Holder>)
    ensures Sound(KNOWN_NAMES, rows, table, out)
    ensures forall i :: 0 <= i < |rows| ==> Covers(KNOWN_NAMES, table, rows[i], out)
    ensures table == [] ==> out == rows
  {
    out := ExpandOwners(KNOWN_NAMES, rows, table);
  }

  /** Process p of the table, added as a living holder of the owner's port. */
  ghost predicate IsRowFor(names: Names, owner: Holder, p: Process, row: Holder) {
    && row.port == owner.port && row.pid == p.pid && row.name == p.name && row.cmd == p.cmd
    && (row.isDocker <==> names.isDocker(p.name, p.cmd)) && row.alive && row.heirs == []
  }

  /** An added row describes a process of the table that descends from a dead owner and is no shell host. */
  lemma AddedRowIs(names: Names, rows: seq<Holder>, table: seq<Process>, out: seq<Holder>, j: nat)
    returns (i: nat, p: Process)
    requires Sound(names, rows, table, out) && |rows| <= j < |out|
    ensures i < |rows| && !rows[i].alive && p in table && Descends(table, p.pid, rows[i].pid)
    ensures !names.isShellHost(p.name) && IsRowFor(names, rows[i], p, out[j])
  {
    assert HasOwner(names, rows, table, out, j);
    i :| 0 <= i < |rows| && AddedFor(names, rows, table, out, j, i);
    p := Find(table, out[j].pid);
  }

  lemma AddedRowsAreAlive(names: Names, rows: seq<Holder>, table: seq<Process>, out: seq<Holder>, i: nat)
    requires Sound(names, rows, table, out) && i < |out| && !out[i].alive
    ensures i < |rows|
  {
    assert |rows| <= i ==> HasOwner(names, rows, table, out, i);
  }

  /** When the owners are distinct, so is the whole result. */
  lemma DistinctOwnersStayDistinct(names: Names, rows: seq<Holder>, table: seq<Process>, out: seq<Holder>)
    requires Sound(names, rows, table, out)
    requires forall i, j :: 0 <= i < j < |rows| ==> rows[i].port != rows[j].port || rows[i].pid != rows[j].pid
    ensures forall i, j :: 0 <= i < j < |out| ==> out[i].port != out[j].port || out[i].pid != out[j].pid
  {
    forall i, j | 0 <= i < j < |out| ensures out[i].port != out[j].port || out[i].pid != out[j].pid {
      if j < |rows| { assert out[i] == rows[i].(heirs := out[i].heirs) && out[j] == rows[j].(heirs := out[j].heirs); }
    }
  }
}
