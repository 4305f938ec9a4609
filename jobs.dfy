/** Job ordering (src/core/Jobs.cpp): tasks of the task table become jobs,
    their instructions pruned when their cached input files did not change,
    and a depth-first walk over the REQUIRES / THEN graph orders them.

    Which files the cache reports as changed is a parameter (`changed`):
    the hash files the cache manager reads and writes are not modelled. */
module Jobs {
  import opened Wrappers
  import opened Support
  import opened Attributes
  import opened TableHelper

  // ---------------------------------------------------------------------
  // Tasks and jobs
  // ---------------------------------------------------------------------

  /** `InstructionTask::Cache::Type`. */
  datatype CacheKind = Track | Store | Untrack

  /** The `@cache` settings of a task: whether caching is on, its kind and
      the files it names. */
  datatype TaskCache = TaskCache(enabled: bool, kind: CacheKind, files: seq<string>)

  /** The parts of `InstructionTask` a job is built from. */
  datatype Task = Task(name: string, instrs: seq<string>, interpreter: string, expanded: bool, cache: TaskCache)

  /** `Jobs::Job`. */
  datatype Job = Job(name: string, instructions: seq<string>, interpreter: string,
                     expanded: bool, parallelizable: bool, echo: bool)

  // ---------------------------------------------------------------------
  // Pruning
  // ---------------------------------------------------------------------

  /** The instruction mentions one of the files. */
  predicate Referenced(instr: string, files: seq<string>) {
    exists j :: 0 <= j < |files| && Contains(instr, files[j])
  }

  /** The instruction mentions a file the cache reports as unchanged. */
  predicate Stale(instr: string, files: seq<string>, changed: set<string>) {
    exists j :: 0 <= j < |files| && files[j] !in changed && Contains(instr, files[j])
  }

  /** No instruction mentions any of the files. */
  predicate NoneReferenced(instrs: seq<string>, files: seq<string>) {
    forall i :: 0 <= i < |instrs| ==> !Referenced(instrs[i], files)
  }

  /** Some file is reported as changed. */
  predicate AnyChanged(files: seq<string>, changed: set<string>) {
    exists j :: 0 <= j < |files| && files[j] in changed
  }

  /** The instructions that are not stale, in their order. */
  function Survivors(instrs: seq<string>, files: seq<string>, changed: set<string>): (r: seq<string>)
    ensures |r| <= |instrs|
    ensures forall x :: x in r ==> x in instrs && !Stale(x, files, changed)
    ensures forall i :: 0 <= i < |instrs| && !Stale(instrs[i], files, changed) ==> instrs[i] in r
  {
    if instrs == [] then []
    else
      var init := instrs[..|instrs| - 1];
      var last := instrs[|instrs| - 1];
      assert forall i :: 0 <= i < |init| ==> init[i] == instrs[i];
      Survivors(init, files, changed) + (if Stale(last, files, changed) then [] else [last])
  }

  /** a is b with some elements left out, the rest in order. */
  predicate Subsequence(a: seq<string>, b: seq<string>)
    decreases |b|
  {
    if a == [] then true
    else if b == [] then false
    else if a[|a| - 1] == b[|b| - 1] then Subsequence(a[..|a| - 1], b[..|b| - 1])
    else Subsequence(a, b[..|b| - 1])
  }

  lemma {:induction false} SurvivorsSubsequence(instrs: seq<string>, files: seq<string>, changed: set<string>)
    ensures Subsequence(Survivors(instrs, files, changed), instrs)
  {
    if instrs != [] {
      var init := instrs[..|instrs| - 1];
      var last := instrs[|instrs| - 1];
      SurvivorsSubsequence(init, files, changed);
      var r := Survivors(init, files, changed);
      assert init + [last] == instrs;
      if Stale(last, files, changed) {
        assert Survivors(instrs, files, changed) == r;
        SubsequenceWeaken(r, init, last);
      } else {
        assert (r + [last])[..|r|] == r;
      }
    }
  }

  /** A subsequence of b is one of b grown by an element. */
  lemma {:induction false} SubsequenceWeaken(a: seq<string>, b: seq<string>, x: string)
    requires Subsequence(a, b)
    ensures Subsequence(a, b + [x])
    decreases |b|, 1
  {
    assert (b + [x])[..|b|] == b;
    if a != [] && a[|a| - 1] == x {
      SubsequenceDropLast(a, b);
    }
  }

  /** Leaving out the last element of a subsequence keeps it one. */
  lemma {:induction false} SubsequenceDropLast(a: seq<string>, b: seq<string>)
    requires a != [] && Subsequence(a, b)
    ensures Subsequence(a[..|a| - 1], b)
    decreases |b|, 0
  {
    var b' := b[..|b| - 1];
    assert b' + [b[|b| - 1]] == b;
    if a[|a| - 1] == b[|b| - 1] {
      SubsequenceWeaken(a[..|a| - 1], b', b[|b| - 1]);
    } else {
      SubsequenceDropLast(a, b');
      SubsequenceWeaken(a[..|a| - 1], b', b[|b| - 1]);
    }
  }

  /** What `PruneUnchangedInstructions` leaves of the instructions. Nothing
      is pruned without instructions, with caching off, or for `untrack`.
      When no instruction mentions a file and no file changed, every
      instruction goes; when some instruction mentions a file, the stale
      ones go; otherwise all stay. */
  function Pruned(instrs: seq<string>, cache: TaskCache, changed: set<string>): seq<string> {
    if |instrs| == 0 || !cache.enabled || cache.kind == Untrack then instrs
    else if NoneReferenced(instrs, cache.files) && !AnyChanged(cache.files, changed) then []
    else if !NoneReferenced(instrs, cache.files) then Survivors(instrs, cache.files, changed)
    else instrs
  }

  /** Pruning keeps a subsequence of the instructions. Apart from the case
      where nothing mentions a file and nothing changed, which clears the
      list, it drops exactly the instructions that mention an unchanged
      file. */
  lemma PruneKeepsSurvivors(instrs: seq<string>, cache: TaskCache, changed: set<string>)
    requires |instrs| > 0 && cache.enabled && cache.kind != Untrack
    ensures Subsequence(Pruned(instrs, cache, changed), instrs)
    ensures Pruned(instrs, cache, changed) == Survivors(instrs, cache.files, changed) ||
            (Pruned(instrs, cache, changed) == [] && NoneReferenced(instrs, cache.files) && !AnyChanged(cache.files, changed))
  {
    SurvivorsSubsequence(instrs, cache.files, changed);
    if NoneReferenced(instrs, cache.files) && AnyChanged(cache.files, changed) {
      NothingStale(instrs, cache.files, changed);
    }
  }

  /** With no file mentioned, no instruction is stale. */
  lemma {:induction false} NothingStale(instrs: seq<string>, files: seq<string>, changed: set<string>)
    requires NoneReferenced(instrs, files)
    ensures Survivors(instrs, files, changed) == instrs
  {
    if instrs != [] {
      var init := instrs[..|instrs| - 1];
      assert forall i :: 0 <= i < |init| ==> init[i] == instrs[i];
      NothingStale(init, files, changed);
      assert !Referenced(instrs[|instrs| - 1], files);
      assert init + [instrs[|instrs| - 1]] == instrs;
    }
  }

  /** `PruneUnchangedInstructions`: mark each instruction that mentions an
      unchanged file, then rebuild the list. Files are only consulted for
      `track` and `store`; `untrack` clears the cache entries instead. */
  method PruneUnchangedInstructions(instrs: seq<string>, cache: TaskCache, changed: set<string>) returns (result: seq<string>)
    ensures result == Pruned(instrs, cache, changed)
  {
    if |instrs| == 0 || !cache.enabled {
      return instrs;
    }
    var keep := new bool[|instrs|](_ => true);
    var neverFound := true;
    var anyChanges := false;
    if cache.kind != Untrack {
      neverFound, anyChanges := MarkFiles(instrs, keep, cache.files, changed);
    }
    if neverFound && !anyChanges && cache.kind != Untrack {
      result := [];
    } else if !neverFound {
      result := KeptInstructions(instrs, keep, cache.files, changed);
    } else {
      result := instrs;
    }
  }

  /** The loop over the cached files: afterwards an instruction is marked
      to keep exactly when it is not stale, and the flags say whether any
      instruction mentions a file and whether any file changed. */
  method MarkFiles(instrs: seq<string>, keep: array<bool>, files: seq<string>, changed: set<string>)
    returns (neverFound: bool, anyChanges: bool)
    requires keep.Length == |instrs| && forall i :: 0 <= i < keep.Length ==> keep[i]
    modifies keep
    ensures forall i :: 0 <= i < |instrs| ==> keep[i] == !Stale(instrs[i], files, changed)
    ensures neverFound == NoneReferenced(instrs, files)
    ensures anyChanges == AnyChanged(files, changed)
  {
    neverFound := true;
    anyChanges := false;
    var j := 0;
    while j < |files|
      invariant j <= |files|
      invariant forall i :: 0 <= i < |instrs| ==> keep[i] == !Stale(instrs[i], files[..j], changed)
      invariant neverFound == NoneReferenced(instrs, files[..j])
      invariant anyChanges == AnyChanged(files[..j], changed)
    {
      neverFound := ProcessFile(instrs, keep, files, j, changed, neverFound);
      if files[j] in changed {
        anyChanges := true;
      }
      assert files[..j + 1] == files[..j] + [files[j]];
      j := j + 1;
    }
    assert files[..j] == files;
  }

  /** The rebuilt list: the instructions still marked to keep, in order. */
  method KeptInstructions(instrs: seq<string>, keep: array<bool>, files: seq<string>, changed: set<string>)
    returns (filtered: seq<string>)
    requires keep.Length == |instrs|
    requires forall i :: 0 <= i < |instrs| ==> keep[i] == !Stale(instrs[i], files, changed)
    ensures filtered == Survivors(instrs, files, changed)
  {
    filtered := [];
    var i := 0;
    while i < |instrs|
      invariant i <= |instrs|
      invariant filtered == Survivors(instrs[..i], files, changed)
    {
      assert instrs[..i + 1][..i] == instrs[..i];
      if keep[i] {
        filtered := filtered + [instrs[i]];
      }
      i := i + 1;
    }
    assert instrs[..i] == instrs;
  }

  /** `process_file` for the file at position j: every instruction still
      kept that mentions the file is found, and pruned if the file did not
      change. */
  method ProcessFile(instrs: seq<string>, keep: array<bool>, files: seq<string>, j: nat, changed: set<string>, neverFound: bool)
    returns (stillNeverFound: bool)
    requires j < |files| && keep.Length == |instrs|
    requires forall i :: 0 <= i < |instrs| ==> keep[i] == !Stale(instrs[i], files[..j], changed)
    requires neverFound == NoneReferenced(instrs, files[..j])
    modifies keep
    ensures forall i :: 0 <= i < |instrs| ==> keep[i] == !Stale(instrs[i], files[..j + 1], changed)
    ensures stillNeverFound == NoneReferenced(instrs, files[..j + 1])
  {
    var file := files[j];
    var isChanged := file in changed;
    stillNeverFound := neverFound;
    var i := 0;
    while i < |instrs|
      invariant i <= |instrs|
      invariant forall k :: 0 <= k < i ==> keep[k] == !Stale(instrs[k], files[..j + 1], changed)
      invariant forall k :: i <= k < |instrs| ==> keep[k] == !Stale(instrs[k], files[..j], changed)
      invariant stillNeverFound == (NoneReferenced(instrs, files[..j]) && forall k :: 0 <= k < i ==> !Contains(instrs[k], file))
    {
      StaleStep(instrs[i], files, j, changed);
      if keep[i] {
        var found := Find(instrs[i], file);
        if found.Some? {
          stillNeverFound := false;
          if !isChanged {
            keep[i] := false;
          }
        }
      } else {
        assert !NoneReferenced(instrs, files[..j]) by {
          var w :| 0 <= w < j && files[..j][w] !in changed && Contains(instrs[i], files[..j][w]);
          assert Referenced(instrs[i], files[..j]);
        }
      }
      i := i + 1;
    }
    ReferencedStep(instrs, files, j);
  }

  /** One more file makes an instruction stale exactly when it mentions
      that file and the file did not change. */
  lemma StaleStep(instr: string, files: seq<string>, j: nat, changed: set<string>)
    requires j < |files|
    ensures Stale(instr, files[..j + 1], changed) <==>
              Stale(instr, files[..j], changed) || (files[j] !in changed && Contains(instr, files[j]))
  {
    var p := files[..j + 1];
    assert forall w :: 0 <= w < j ==> p[w] == files[..j][w];
    assert p[j] == files[j];
  }

  lemma ReferencedStep(instrs: seq<string>, files: seq<string>, j: nat)
    requires j < |files|
    ensures NoneReferenced(instrs, files[..j + 1]) <==>
              NoneReferenced(instrs, files[..j]) && forall k :: 0 <= k < |instrs| ==> !Contains(instrs[k], files[j])
  {
    var p := files[..j + 1];
    assert p[j] == files[j];
    if NoneReferenced(instrs, files[..j]) && forall k :: 0 <= k < |instrs| ==> !Contains(instrs[k], files[j]) {
      forall i | 0 <= i < |instrs| ensures !Referenced(instrs[i], p) {
        forall w | 0 <= w < |p| ensures !Contains(instrs[i], p[w]) {
          if w < j {
            assert p[w] == files[..j][w];
          }
        }
      }
    }
    if NoneReferenced(instrs, p) {
      forall i | 0 <= i < |instrs| ensures !Referenced(instrs[i], files[..j]) && !Contains(instrs[i], files[j]) {
        forall w | 0 <= w < j ensures !Contains(instrs[i], files[..j][w]) {
          assert files[..j][w] == p[w];
        }
      }
    }
  }

  // ---------------------------------------------------------------------
  // Building a job
  // ---------------------------------------------------------------------

  /** `make_single_instruction`: every line followed by a newline. */
  function Script(lines: seq<string>): string {
    if lines == [] then [] else Script(lines[..|lines| - 1]) + lines[|lines| - 1] + "\n"
  }

  /** Where line i starts in the script. */
  function Offset(lines: seq<string>, i: nat): nat
    requires i <= |lines|
  {
    if i == 0 then 0 else Offset(lines, i - 1) + |lines[i - 1]| + 1
  }

  /** The script is as long as its lines and their newlines. */
  lemma {:induction false} ScriptLength(lines: seq<string>)
    ensures |Script(lines)| == Offset(lines, |lines|)
  {
    if lines != [] {
      var n := |lines| - 1;
      ScriptLength(lines[..n]);
      OffsetPrefixAt(lines, n, n);
    }
  }

  /** Line i of the script starts at its offset and is followed by a
      newline. */
  lemma {:induction false} ScriptLine(lines: seq<string>, i: nat)
    requires i < |lines|
    ensures Offset(lines, i + 1) <= |Script(lines)|
    ensures Script(lines)[Offset(lines, i)..Offset(lines, i) + |lines[i]|] == lines[i]
    ensures Script(lines)[Offset(lines, i) + |lines[i]|] == '\n'
  {
    var n := |lines| - 1;
    var init := lines[..n];
    var s := Script(init);
    ScriptLength(init);
    OffsetPrefixAt(lines, n, n);
    assert Script(lines) == s + lines[n] + "\n";
    if i < n {
      ScriptLine(init, i);
      OffsetPrefixAt(lines, n, i);
      OffsetPrefixAt(lines, n, i + 1);
      assert init[i] == lines[i];
      OffsetGrows(lines, i + 1, n);
      assert Script(lines)[..|s|] == s;
    }
  }

  lemma {:induction false} OffsetGrows(lines: seq<string>, i: nat, n: nat)
    requires i <= n <= |lines|
    ensures Offset(lines, i) <= Offset(lines, n)
    decreases n - i
  {
    if i < n {
      OffsetGrows(lines, i + 1, n);
    }
  }

  lemma {:induction false} OffsetPrefixAt(lines: seq<string>, n: nat, i: nat)
    requires i <= n <= |lines|
    ensures Offset(lines[..n], i) == Offset(lines, i)
  {
    if i > 0 {
      OffsetPrefixAt(lines, n, i - 1);
      assert lines[..n][i - 1] == lines[i - 1];
    }
  }

  /** The loop of `make_single_instruction`. */
  method MakeSingleInstruction(lines: seq<string>) returns (script: string)
    ensures script == Script(lines)
  {
    script := "";
    var i := 0;
    while i < |lines|
      invariant i <= |lines|
      invariant script == Script(lines[..i])
    {
      assert lines[..i + 1][..i] == lines[..i];
      script := script + lines[i] + "\n";
      i := i + 1;
    }
    assert lines[..i] == lines;
  }

  /** The job `FromInstruction` builds, none when there are no
      instructions to run, before or after pruning. */
  function JobOf(task: Item<Task>, prunable: bool, changed: set<string>): Option<Job> {
    var t := task.payload;
    if |t.instrs| == 0 then None
    else
      var instrs := if t.expanded then t.instrs else [Script(t.instrs)];
      var kept := if prunable then Pruned(instrs, t.cache, changed) else instrs;
      if kept == [] then None
      else Some(Job(t.name, kept, t.interpreter, t.expanded,
                    HasAttribute(task.attributes, Multithread), HasAttribute(task.attributes, Echo)))
  }

  /** A task without instructions yields no job; one that is not expanded
      and not pruned yields its lines as a single script. */
  lemma JobShape(task: Item<Task>, changed: set<string>)
    ensures |task.payload.instrs| == 0 ==> JobOf(task, true, changed).None? && JobOf(task, false, changed).None?
    ensures |task.payload.instrs| > 0 && !task.payload.expanded ==>
              JobOf(task, false, changed) == Some(Job(task.payload.name, [Script(task.payload.instrs)], task.payload.interpreter, false,
                                                      HasAttribute(task.attributes, Multithread), HasAttribute(task.attributes, Echo)))
    ensures |task.payload.instrs| > 0 && task.payload.expanded ==>
              JobOf(task, false, changed).Some? && JobOf(task, false, changed).value.instructions == task.payload.instrs
  {
  }

  /** `FromInstruction`. */
  method FromInstruction(task: Item<Task>, prunable: bool, changed: set<string>) returns (job: Option<Job>)
    ensures job == JobOf(task, prunable, changed)
  {
    var t := task.payload;
    if |t.instrs| == 0 {
      return None;
    }
    var instrs: seq<string>;
    if t.expanded {
      instrs := t.instrs;
    } else {
      var script := MakeSingleInstruction(t.instrs);
      instrs := [script];
    }
    if prunable {
      instrs := PruneUnchangedInstructions(instrs, t.cache, changed);
    }
    if |instrs| == 0 {
      return None;
    }
    return Some(Job(t.name, instrs, t.interpreter, t.expanded,
                    HasAttribute(task.attributes, Multithread), HasAttribute(task.attributes, Echo)));
  }

  // ---------------------------------------------------------------------
  // The graph
  // ---------------------------------------------------------------------

  /** A node: the REQUIRES names (dependencies) and the THEN names
      (successors). */
  datatype Node = Node(deps: seq<string>, succs: seq<string>)

  /** The node of a task: the properties of its first REQUIRES and first
      THEN attribute, empty when it has none. */
  function NodeOf(attrs: seq<Attribute>): (n: Node)
    ensures HasAttribute(attrs, Requires) ==> n.deps == GetProperties(attrs, Requires)
    ensures HasAttribute(attrs, Then) ==> n.succs == GetProperties(attrs, Then)
    ensures !HasAttribute(attrs, Requires) ==> n.deps == []
    ensures !HasAttribute(attrs, Then) ==> n.succs == []
  {
    Node(if HasAttribute(attrs, Requires) then GetProperties(attrs, Requires) else [],
         if HasAttribute(attrs, Then) then GetProperties(attrs, Then) else [])
  }

  /** `BuildGraph`: one node for every task of the table. */
  method BuildGraph(table: Table<Task>) returns (g: map<string, Node>)
    requires table.Valid()
    ensures g.Keys == table.contents.Keys
    ensures forall n :: n in g ==> g[n] == NodeOf(table.contents[n].attributes)
  {
    g := map[];
    var names := table.Keys();
    var i := 0;
    while i < |names|
      invariant i <= |names|
      invariant g.Keys == set k | k in names[..i]
      invariant forall n :: n in g ==> n in table.contents && g[n] == NodeOf(table.contents[n].attributes)
    {
      var name := names[i];
      var task := table.contents[name];
      var deps: seq<string> := [];
      var succs: seq<string> := [];
      if HasAttribute(task.attributes, Requires) {
        deps := GetProperties(task.attributes, Requires);
      }
      if HasAttribute(task.attributes, Then) {
        succs := GetProperties(task.attributes, Then);
      }
      g := g[name := Node(deps, succs)];
      assert names[..i + 1] == names[..i] + [name];
      i := i + 1;
    }
    assert names[..i] == names;
  }

  // ---------------------------------------------------------------------
  // The depth-first walk
  // ---------------------------------------------------------------------

  /** `VisitMark`. */
  datatype Mark = NoMark | Temp | Perm

  datatype VisitError = UnknownTask(task: string) | CyclicDependency(task: string)

  /** The mark of a name; `mark[name]` reads a missing one as NONE. */
  function MarkOf(mark: map<string, Mark>, n: string): Mark {
    if n in mark then mark[n] else NoMark
  }

  /** The tasks of the table not yet marked. */
  function Unmarked(table: map<string, Item<Task>>, mark: map<string, Mark>): set<string> {
    set n | n in table && MarkOf(mark, n) == NoMark
  }

  /** What the walk carries along: the marks, the jobs collected and the
      error text. */
  datatype Walk = Walk(mark: map<string, Mark>, out: seq<Job>, err: Option<VisitError>)

  /** What the walk reads: the task table, the graph, the cache's answers
      and whether jobs are pruned. */
  datatype Env = Env(table: map<string, Item<Task>>, graph: map<string, Node>, changed: set<string>, prunable: bool)

  /** A later state of the walk: no mark is undone, PERM and TEMP marks
      set before stay, and jobs are only appended. */
  ghost predicate Advances(table: map<string, Item<Task>>, w: Walk, w': Walk) {
    && Unmarked(table, w'.mark) <= Unmarked(table, w.mark)
    && w.out <= w'.out
    && (forall n :: MarkOf(w.mark, n) == Perm ==> MarkOf(w'.mark, n) == Perm)
    && (forall n :: MarkOf(w.mark, n) == Temp ==> MarkOf(w'.mark, n) == Temp)
  }

  /** No name is TEMP in w' that was not TEMP in w. */
  ghost predicate NoNewTemp(w: Walk, w': Walk) {
    forall n :: MarkOf(w'.mark, n) == Temp ==> MarkOf(w.mark, n) == Temp
  }

  /** `collect_node`: append the node's job, if it has one. */
  function Collect(name: string, env: Env, w: Walk): (r: Walk)
    requires name in env.table
    ensures r.mark == w.mark && r.err == w.err && w.out <= r.out
  {
    match JobOf(env.table[name], env.prunable, env.changed)
    case Some(j) => w.(out := w.out + [j])
    case None => w
  }

  /** `dfs_visit`: an unknown task or a TEMP mark is an error, a PERM mark
      means the task was already visited. */
  function Dfs(name: string, env: Env, w: Walk): (r: (bool, Walk))
    decreases Unmarked(env.table, w.mark), 1, 0
    ensures Advances(env.table, w, r.1)
    ensures r.0 ==> name in env.table && MarkOf(r.1.mark, name) == Perm && r.1.err == w.err && NoNewTemp(w, r.1)
    ensures !r.0 ==> r.1.err.Some?
  {
    if name !in env.table then (false, w.(err := Some(UnknownTask(name))))
    else if MarkOf(w.mark, name) == Perm then (true, w)
    else if MarkOf(w.mark, name) == Temp then (false, w.(err := Some(CyclicDependency(name))))
    else DfsFresh(name, env, w)
  }

  /** `dfs_visit` on a task not yet marked: mark it TEMP, walk the
      dependencies, collect the node, walk the successors, mark it PERM.
      The first error ends the walk. */
  function DfsFresh(name: string, env: Env, w: Walk): (r: (bool, Walk))
    requires name in env.table && MarkOf(w.mark, name) == NoMark
    decreases Unmarked(env.table, w.mark), 0, 0
    ensures Advances(env.table, w, r.1)
    ensures r.0 ==> MarkOf(r.1.mark, name) == Perm && r.1.err == w.err && NoNewTemp(w, r.1)
    ensures !r.0 ==> r.1.err.Some?
  {
    var w1 := w.(mark := w.mark[name := Temp]);
    MarkTemp(env.table, w, name);
    if name !in env.graph then
      MarkPerm(env.table, w, w1, name);
      (true, w1.(mark := w1.mark[name := Perm]))
    else
      var d := DfsList(env.graph[name].deps, env, w1);
      AdvancesTrans(env.table, w, w1, d.1);
      if !d.0 then d
      else
        var c := Collect(name, env, d.1);
        var s := DfsList(env.graph[name].succs, env, c);
        AdvancesTrans(env.table, w1, d.1, s.1);
        AdvancesTrans(env.table, w, w1, s.1);
        if !s.0 then s
        else
          MarkPerm(env.table, w, s.1, name);
          (true, s.1.(mark := s.1.mark[name := Perm]))
  }

  /** Marking an unmarked task TEMP removes it from the unmarked ones. */
  lemma MarkTemp(table: map<string, Item<Task>>, w: Walk, name: string)
    requires name in table && MarkOf(w.mark, name) == NoMark
    ensures var w1 := w.(mark := w.mark[name := Temp]);
            Unmarked(table, w1.mark) == Unmarked(table, w.mark) - {name} && Advances(table, w, w1)
  {
  }

  /** Marking the task PERM at the end of its visit. */
  lemma MarkPerm(table: map<string, Item<Task>>, w: Walk, v: Walk, name: string)
    requires name in table && MarkOf(w.mark, name) == NoMark
    requires Advances(table, w, v) && MarkOf(v.mark, name) == Temp
    requires forall n :: MarkOf(v.mark, n) == Temp ==> n == name || MarkOf(w.mark, n) == Temp
    ensures var f := v.(mark := v.mark[name := Perm]);
            Advances(table, w, f) && NoNewTemp(w, f) && MarkOf(f.mark, name) == Perm
  {
  }

  lemma AdvancesTrans(table: map<string, Item<Task>>, a: Walk, b: Walk, c: Walk)
    requires Advances(table, a, b) && Advances(table, b, c)
    ensures Advances(table, a, c)
  {
  }

  /** The loops of `dfs_visit` over a list of names. */
  function DfsList(names: seq<string>, env: Env, w: Walk): (r: (bool, Walk))
    decreases Unmarked(env.table, w.mark), 2, |names|
    ensures Advances(env.table, w, r.1)
    ensures r.0 ==> r.1.err == w.err && NoNewTemp(w, r.1)
    ensures r.0 ==> forall i :: 0 <= i < |names| ==> names[i] in env.table && MarkOf(r.1.mark, names[i]) == Perm
    ensures !r.0 ==> r.1.err.Some?
  {
    if names == [] then (true, w)
    else
      var h := Dfs(names[0], env, w);
      if !h.0 then h
      else
        var t := DfsList(names[1..], env, h.1);
        assert forall i :: 1 <= i < |names| ==> names[1..][i - 1] == names[i];
        t
  }

  /** The order of the jobs: for a task visited for the first time, the
      jobs of its dependencies come first, then its own job, then the jobs
      of its successors: the rest of the output is what the walk of the
      successors appends, started right after the task's own job. */
  lemma DfsOrder(name: string, env: Env, w: Walk)
    requires name in env.table && name in env.graph && MarkOf(w.mark, name) == NoMark
    requires Dfs(name, env, w).0
    ensures var d := DfsList(env.graph[name].deps, env, w.(mark := w.mark[name := Temp]));
            var job := JobOf(env.table[name], env.prunable, env.changed);
            var own := if job.Some? then [job.value] else [];
            var out := Dfs(name, env, w).1.out;
            && d.0 && w.out <= d.1.out
            && |d.1.out| + |own| <= |out|
            && out[..|d.1.out|] == d.1.out
            && out[|d.1.out|..|d.1.out| + |own|] == own
    ensures var d := DfsList(env.graph[name].deps, env, w.(mark := w.mark[name := Temp]));
            var job := JobOf(env.table[name], env.prunable, env.changed);
            var own := if job.Some? then [job.value] else [];
            var start := d.1.(out := d.1.out + own);
            var s := DfsList(env.graph[name].succs, env, start);
            && s.0 && Dfs(name, env, w).1.out == s.1.out && start.out <= s.1.out
  {
    var d := DfsList(env.graph[name].deps, env, w.(mark := w.mark[name := Temp]));
    var job := JobOf(env.table[name], env.prunable, env.changed);
    var own := if job.Some? then [job.value] else [];
    var c := Collect(name, env, d.1);
    assert c == d.1.(out := d.1.out + own);
    var s := DfsList(env.graph[name].succs, env, c);
    assert Dfs(name, env, w) == DfsFresh(name, env, w);
    assert c.out <= s.1.out;
  }

  /** The walk as `dfs_visit` runs it on a mark map, an output list and an
      error string passed by reference. */
  class Walker {
    var mark: map<string, Mark>
    var out: seq<Job>
    var err: Option<VisitError>

    function State(): Walk
      reads this
    {
      Walk(mark, out, err)
    }

    constructor ()
      ensures mark == map[] && out == [] && err.None?
    {
      mark, out, err := map[], [], None;
    }

    /** `dfs_visit`. */
    method Visit(name: string, env: Env) returns (ok: bool)
      modifies this
      decreases Unmarked(env.table, mark), 1
      ensures (ok, State()) == Dfs(name, env, old(State()))
    {
      if name !in env.table {
        err := Some(UnknownTask(name));
        return false;
      }
      var m := MarkOf(mark, name);
      if m == Perm {
        return true;
      }
      if m == Temp {
        err := Some(CyclicDependency(name));
        return false;
      }
      ghost var w := State();
      mark := mark[name := Temp];
      ghost var w1 := State();
      assert Unmarked(env.table, w1.mark) == Unmarked(env.table, w.mark) - {name};
      if name in env.graph {
        ok := VisitEach(env.graph[name].deps, env);
        if !ok {
          return false;
        }
        ghost var d := State();
        var job := FromInstruction(env.table[name], env.prunable, env.changed);
        if job.Some? {
          out := out + [job.value];
        }
        assert State() == Collect(name, env, d);
        ok := VisitEach(env.graph[name].succs, env);
        if !ok {
          return false;
        }
      }
      mark := mark[name := Perm];
      return true;
    }

    /** One adjacency list of `dfs_visit`: visit each name in order, and
        stop at the first that fails. */
    method VisitEach(names: seq<string>, env: Env) returns (ok: bool)
      modifies this
      decreases Unmarked(env.table, mark), 2
      ensures (ok, State()) == DfsList(names, env, old(State()))
    {
      var i := 0;
      while i < |names|
        invariant i <= |names|
        invariant Unmarked(env.table, mark) <= old(Unmarked(env.table, mark))
        invariant DfsList(names, env, old(State())) == DfsList(names[i..], env, State())
      {
        assert names[i..][1..] == names[i + 1..];
        ok := Visit(names[i], env);
        if !ok {
          return false;
        }
        i := i + 1;
      }
      return true;
    }
  }

  // ---------------------------------------------------------------------
  // The job list
  // ---------------------------------------------------------------------

  /** The names of a list of jobs. */
  function Names(jobs: seq<Job>): set<string> {
    set i | 0 <= i < |jobs| :: jobs[i].name
  }

  /** No two jobs share a name. */
  predicate UniqueNames(jobs: seq<Job>) {
    forall i, j :: 0 <= i < j < |jobs| ==> jobs[i].name != jobs[j].name
  }

  /** `Jobs::List`: the jobs in insertion order and the set of their names. */
  class List {
    var index: set<string>
    var data: seq<Job>

    ghost predicate Valid()
      reads this
    {
      index == Names(data) && UniqueNames(data)
    }

    constructor ()
      ensures Valid() && data == []
    {
      index, data := {}, [];
    }

    /** `List::Insert`: append a job whose name is new; a missing job or a
        known name changes nothing. */
    method Insert(j: Option<Job>)
      requires Valid()
      modifies this
      ensures Valid()
      ensures data == if j.Some? && j.value.name !in old(index) then old(data) + [j.value] else old(data)
    {
      if j.Some? {
        var inserted := j.value.name !in index;
        if inserted {
          index := index + {j.value.name};
          data := data + [j.value];
          assert Names(data) == Names(old(data)) + {j.value.name} by {
            assert forall i :: 0 <= i < |old(data)| ==> data[i] == old(data)[i];
            assert data[|old(data)|] == j.value;
          }
        }
      }
    }
  }
}
