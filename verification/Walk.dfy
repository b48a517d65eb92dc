/**
 The capped worklist walk of a directory tree (source/local.rs, `index_dir`), for any kind of
 path and any probe of a file.
 */
module Walk {

  import opened Wrappers

  /** A directory entry and what lies below it. `Other` is a symlink, a device or an unreadable entry. */
  datatype Tree<P> = Dir(entries: seq<Tree<P>>) | UnreadableDir | File(path: P) | Other

  predicate IsDirectory<P>(t: Tree<P>) {
    t.Dir? || t.UnreadableDir?
  }

  function Take<T>(s: seq<T>, n: nat): seq<T> {
    if |s| <= n then s else s[..n]
  }

  /** The probe's findings, file by file. */
  function Collect<P, E>(probe: P -> seq<E>, paths: seq<P>): seq<E> {
    if paths == [] then [] else Collect(probe, paths[..|paths| - 1]) + probe(paths[|paths| - 1])
  }

  lemma CollectSnoc<P, E>(probe: P -> seq<E>, paths: seq<P>, p: P)
    ensures Collect(probe, paths + [p]) == Collect(probe, paths) + probe(p)
  {
    assert (paths + [p])[..|paths|] == paths;
  }

  // ---- the meaning of the walk --------------------------------------------

  /** The regular files among the first `n` entries of a directory, in listing order. */
  function FilesUpTo<P>(entries: seq<Tree<P>>, n: nat): seq<P>
    requires n <= |entries|
  {
    if n == 0 then []
    else if entries[n - 1].File? then FilesUpTo(entries, n - 1) + [entries[n - 1].path]
    else FilesUpTo(entries, n - 1)
  }

  /** The directories among the first `n` entries. */
  function DirsUpTo<P>(entries: seq<Tree<P>>, n: nat): seq<Tree<P>>
    requires n <= |entries|
  {
    if n == 0 then []
    else if IsDirectory(entries[n - 1]) then DirsUpTo(entries, n - 1) + [entries[n - 1]]
    else DirsUpTo(entries, n - 1)
  }

  /**
   The files below a directory in the order the walk meets them: its own files, then its
   subdirectories from the last to the first, each completely.
   */
  function WalkOrder<P>(t: Tree<P>): seq<P>
    decreases t, 0
  {
    match t
    case Dir(entries) => FilesUpTo(entries, |entries|) + WalkBelow(t, entries, |entries|)
    case _ => []
  }

  function WalkBelow<P>(ghost parent: Tree<P>, entries: seq<Tree<P>>, n: nat): seq<P>
    requires n <= |entries| && parent == Dir(entries)
    decreases parent, 0, n
  {
    if n == 0 then [] else WalkOrder(entries[n - 1]) + WalkBelow(parent, entries, n - 1)
  }

  /** The files the walk examines: a root that is a file itself, else the walk up to the cap. */
  function Examined<P>(root: Tree<P>, maxFiles: nat): seq<P> {
    if root.File? then [root.path] else Take(WalkOrder(root), maxFiles)
  }

  // ---- the stack -----------------------------------------------------------

  /** The order of a stack of directories: the top completely, then the rest. */
  function StackOrder<P>(stack: seq<Tree<P>>): seq<P> {
    if stack == [] then [] else WalkOrder(stack[|stack| - 1]) + StackOrder(stack[..|stack| - 1])
  }

  function Size<P>(t: Tree<P>): (n: nat)
    decreases t, 0
  {
    match t
    case Dir(entries) => 1 + SizeBelow(t, entries, |entries|)
    case _ => 1
  }

  function SizeBelow<P>(parent: Tree<P>, entries: seq<Tree<P>>, n: nat): nat
    requires n <= |entries| && parent == Dir(entries)
    decreases parent, 0, n
  {
    if n == 0 then 0 else Size(entries[n - 1]) + SizeBelow(parent, entries, n - 1)
  }

  function StackSize<P>(stack: seq<Tree<P>>): nat {
    if stack == [] then 0 else Size(stack[|stack| - 1]) + StackSize(stack[..|stack| - 1])
  }

  lemma StackPush<P>(s: seq<Tree<P>>, d: Tree<P>)
    ensures StackOrder(s + [d]) == WalkOrder(d) + StackOrder(s)
    ensures StackSize(s + [d]) == Size(d) + StackSize(s)
  {
    assert (s + [d])[..|s|] == s;
  }

  /** Pushing a directory's subdirectories schedules exactly what lies below it, before the rest. */
  lemma {:induction false} PushedOrder<P>(rest: seq<Tree<P>>, parent: Tree<P>, entries: seq<Tree<P>>, n: nat)
    requires n <= |entries| && parent == Dir(entries)
    ensures StackOrder(rest + DirsUpTo(entries, n)) == WalkBelow(parent, entries, n) + StackOrder(rest)
    ensures StackSize(rest + DirsUpTo(entries, n)) <= SizeBelow(parent, entries, n) + StackSize(rest)
  {
    if n == 0 {
      assert rest + [] == rest;
    } else {
      PushedOrder(rest, parent, entries, n - 1);
      var dirs, d := DirsUpTo(entries, n - 1), entries[n - 1];
      Associate(WalkOrder(d), WalkBelow(parent, entries, n - 1), StackOrder(rest));
      if IsDirectory(d) {
        Associate(rest, dirs, [d]);
        StackPush(rest + dirs, d);
      } else {
        assert WalkOrder(d) == [];
      }
    }
  }

  /** What popping a readable directory leaves to do. */
  lemma PopDirectory<P>(rest: seq<Tree<P>>, top: Tree<P>)
    requires top.Dir?
    ensures StackOrder(rest + [top])
         == FilesUpTo(top.entries, |top.entries|) + StackOrder(rest + DirsUpTo(top.entries, |top.entries|))
    ensures StackSize(rest + DirsUpTo(top.entries, |top.entries|)) < StackSize(rest + [top])
  {
    var n := |top.entries|;
    StackPush(rest, top);
    PushedOrder(rest, top, top.entries, n);
    Associate(FilesUpTo(top.entries, n), WalkBelow(top, top.entries, n), StackOrder(rest));
  }

  /**
   What is left to do: the pending directories complete the examined files, unless the root
   itself is a file, which is then the only thing on the stack.
   */
  ghost predicate Todo<P(!new)>(stack: seq<Tree<P>>, left: nat, seen: seq<P>, goal: seq<P>) {
    if |stack| == 1 && stack[0].File? then seen == [] && goal == [stack[0].path]
    else NoFiles(stack) && goal == seen + Take(StackOrder(stack), left)
  }

  ghost predicate NoFiles<P(!new)>(stack: seq<Tree<P>>) {
    forall t :: t in stack ==> !t.File?
  }

  lemma {:induction false} DirsAreNotFiles<P(!new)>(entries: seq<Tree<P>>, n: nat)
    requires n <= |entries|
    ensures NoFiles(DirsUpTo(entries, n))
  {
    if n > 0 { DirsAreNotFiles(entries, n - 1); }
  }

  lemma TodoDirectory<P(!new)>(rest: seq<Tree<P>>, top: Tree<P>, left: nat, seen: seq<P>, goal: seq<P>)
    requires top.Dir? && Todo(rest + [top], left, seen, goal)
    ensures var files, pushed := FilesUpTo(top.entries, |top.entries|), rest + DirsUpTo(top.entries, |top.entries|);
            && (|files| > left ==> goal == seen + files[..left])
            && (|files| <= left ==> Todo(pushed, left - |files|, seen + files, goal))
            && StackSize(pushed) < StackSize(rest + [top])
  {
    var files, dirs := FilesUpTo(top.entries, |top.entries|), DirsUpTo(top.entries, |top.entries|);
    assert (rest + [top])[|rest|] == top;
    PopDirectory(rest, top);
    DirsAreNotFiles(top.entries, |top.entries|);
    NoFilesReplaced(rest, top, dirs);
    TakeFirst(files, StackOrder(rest + dirs), left, seen);
  }

  lemma NoFilesReplaced<P(!new)>(rest: seq<Tree<P>>, top: Tree<P>, dirs: seq<Tree<P>>)
    requires NoFiles(rest + [top]) && NoFiles(dirs)
    ensures NoFiles(rest + dirs)
  {
    forall t | t in rest + dirs ensures !t.File? {
      if t in rest { assert t in rest + [top]; }
    }
  }

  lemma TakeFirst<P>(files: seq<P>, later: seq<P>, left: nat, seen: seq<P>)
    ensures |files| > left ==> Take(files + later, left) == files[..left]
    ensures |files| <= left ==> seen + Take(files + later, left) == seen + files + Take(later, left - |files|)
  {
    if |files| <= left {
      assert Take(files + later, left) == files + Take(later, left - |files|);
      Associate(seen, files, Take(later, left - |files|));
    }
  }

  /** A file on the stack is the root and the only thing there. */
  lemma TodoFile<P(!new)>(rest: seq<Tree<P>>, top: Tree<P>, left: nat, seen: seq<P>, goal: seq<P>)
    requires top.File? && Todo(rest + [top], left, seen, goal)
    ensures rest == [] && Todo(rest, left, seen + [top.path], goal)
  {
    assert top in rest + [top] && (rest + [top])[|rest|] == top;
    assert [] + [top.path] == [top.path];
  }

  /** Nothing lies below an entry that cannot be listed. */
  lemma TodoUnreadable<P(!new)>(rest: seq<Tree<P>>, top: Tree<P>, left: nat, seen: seq<P>, goal: seq<P>)
    requires !top.Dir? && !top.File? && Todo(rest + [top], left, seen, goal)
    ensures Todo(rest, left, seen, goal)
  {
    StackPush(rest, top);
    assert (rest + [top])[|rest|] == top;
    assert forall t :: t in rest ==> t in rest + [top];
    assert [] + StackOrder(rest) == StackOrder(rest);
    if |rest| == 1 { assert rest[0] in rest + [top]; }
  }

  lemma TodoStart<P(!new)>(root: Tree<P>, maxFiles: nat)
    ensures Todo([root], maxFiles, [], Examined(root, maxFiles))
  {
    StackPush([], root);
    assert [] + [root] == [root];
  }

  lemma TodoDone<P(!new)>(left: nat, seen: seq<P>, goal: seq<P>)
    requires Todo([], left, seen, goal)
    ensures seen == goal
  {
    assert StackOrder<P>([]) == [];
  }

  // ---- the algorithm -------------------------------------------------------

  lemma {:induction false} FilesMonotone<P>(entries: seq<Tree<P>>, i: nat, n: nat)
    requires i <= n <= |entries|
    ensures FilesUpTo(entries, i) <= FilesUpTo(entries, n)
  {
    if i < n {
      FilesMonotone(entries, i, n - 1);
    }
  }

  /** Go through one directory's entries: examine files, push directories; `full` when the cap stopped it. */
  method IndexEntries<P, E>(probe: P -> seq<E>, entries: seq<Tree<P>>, ghost seen: seq<P>, start: seq<E>,
                            below: seq<Tree<P>>, count: nat, maxFiles: nat)
    returns (out: seq<E>, stack: seq<Tree<P>>, visited: nat, full: bool)
    requires count <= maxFiles && start == Collect(probe, seen)
    ensures var files := FilesUpTo(entries, |entries|);
            && (full <==> count + |files| > maxFiles)
            && (full ==> out == Collect(probe, seen + files[..maxFiles - count]))
            && (!full ==> out == Collect(probe, seen + files))
            && (!full ==> stack == below + DirsUpTo(entries, |entries|) && visited == count + |files|)
  {
    out, stack, visited := start, below, count;
    assert seen + [] == seen && below + [] == below;
    for i := 0 to |entries|
      invariant visited == count + |FilesUpTo(entries, i)| <= maxFiles
      invariant out == Collect(probe, seen + FilesUpTo(entries, i))
      invariant stack == below + DirsUpTo(entries, i)
    {
      if IsDirectory(entries[i]) {
        Associate(below, DirsUpTo(entries, i), [entries[i]]);
        stack := stack + [entries[i]];
      } else if entries[i].File? {
        if visited + 1 > maxFiles {
          FilesMonotone(entries, i + 1, |entries|);
          assert FilesUpTo(entries, |entries|)[..maxFiles - count] == FilesUpTo(entries, i);
          return out, stack, visited, true;
        }
        CollectSnoc(probe, seen + FilesUpTo(entries, i), entries[i].path);
        Associate(seen, FilesUpTo(entries, i), [entries[i].path]);
        visited := visited + 1;
        out := out + probe(entries[i].path);
      }
    }
    full := false;
  }

  /** Visit the top of the stack: a readable directory, a root that is a file, or nothing readable. */
  method VisitTop<P(!new), E>(probe: P -> seq<E>, whole: seq<Tree<P>>, ghost before: seq<P>, ghost goal: seq<P>,
                              start: seq<E>, count: nat, maxFiles: nat)
    returns (out: seq<E>, stack: seq<Tree<P>>, visited: nat, full: bool, ghost seen: seq<P>)
    requires whole != [] && count <= maxFiles && start == Collect(probe, before)
    requires Todo(whole, maxFiles - count, before, goal)
    ensures out == Collect(probe, seen)
    ensures full ==> seen == goal
    ensures !full ==> visited <= maxFiles && Todo(stack, maxFiles - visited, seen, goal)
    ensures !full ==> StackSize(stack) < StackSize(whole)
  {
    var rest, top := whole[..|whole| - 1], whole[|whole| - 1];
    TopLast(whole);
    if top.Dir? {
      out, stack, visited, full, seen := VisitDirectory(probe, rest, top, before, goal, start, count, maxFiles);
    } else {
      out, seen := VisitOther(probe, rest, top, before, goal, start, maxFiles - count);
      stack, visited, full := rest, count, false;
    }
  }

  lemma TopLast<T>(whole: seq<T>)
    requires whole != []
    ensures whole == whole[..|whole| - 1] + [whole[|whole| - 1]]
  {
  }

  method VisitOther<P(!new), E>(probe: P -> seq<E>, ghost rest: seq<Tree<P>>, top: Tree<P>, ghost before: seq<P>,
                                ghost goal: seq<P>, start: seq<E>, ghost left: nat)
    returns (out: seq<E>, ghost seen: seq<P>)
    requires !top.Dir? && start == Collect(probe, before) && Todo(rest + [top], left, before, goal)
    ensures out == Collect(probe, seen)
    ensures Todo(rest, left, seen, goal) && StackSize(rest) < StackSize(rest + [top])
  {
    StackPush(rest, top);
    if top.File? {
      TodoFile(rest, top, left, before, goal);
      CollectSnoc(probe, before, top.path);
      out, seen := start + probe(top.path), before + [top.path];
    } else {
      TodoUnreadable(rest, top, left, before, goal);
      out, seen := start, before;
    }
  }

  method VisitDirectory<P(!new), E>(probe: P -> seq<E>, rest: seq<Tree<P>>, top: Tree<P>, ghost before: seq<P>,
                                    ghost goal: seq<P>, start: seq<E>, count: nat, maxFiles: nat)
    returns (out: seq<E>, stack: seq<Tree<P>>, visited: nat, full: bool, ghost seen: seq<P>)
    requires top.Dir? && count <= maxFiles && start == Collect(probe, before)
    requires Todo(rest + [top], maxFiles - count, before, goal)
    ensures out == Collect(probe, seen)
    ensures full ==> seen == goal
    ensures !full ==> visited <= maxFiles && Todo(stack, maxFiles - visited, seen, goal)
    ensures !full ==> StackSize(stack) < StackSize(rest + [top])
  {
    TodoDirectory(rest, top, maxFiles - count, before, goal);
    out, stack, visited, full := IndexEntries(probe, top.entries, before, start, rest, count, maxFiles);
    seen := if full then goal else before + FilesUpTo(top.entries, |top.entries|);
  }

  /** `index_dir`: pop a directory, examine its files, push its subdirectories, until the cap. */
  method IndexDir<P(!new), E>(probe: P -> seq<E>, root: Tree<P>, maxFiles: nat) returns (out: seq<E>)
    ensures out == Collect(probe, Examined(root, maxFiles))
  {
    out := [];
    var stack, visited: nat := [root], 0;
    ghost var seen: seq<P>, goal := [], Examined(root, maxFiles);
    TodoStart(root, maxFiles);
    while stack != []
      invariant visited <= maxFiles && out == Collect(probe, seen)
      invariant Todo(stack, maxFiles - visited, seen, goal)
      decreases StackSize(stack)
    {
      var full;
      out, stack, visited, full, seen := VisitTop(probe, stack, seen, goal, out, visited, maxFiles);
      if full {
        return;
      }
    }
    TodoDone(maxFiles - visited, seen, goal);
  }

  // ---- what the walk examines ----------------------------------------------

  /** Every regular file at or below a tree, with multiplicity: the reference. */
  function Reachable<P>(t: Tree<P>): multiset<P>
    decreases t, 0
  {
    match t
    case File(path) => multiset{path}
    case Dir(entries) => ReachableBelow(t, entries, |entries|)
    case _ => multiset{}
  }

  function ReachableBelow<P>(parent: Tree<P>, entries: seq<Tree<P>>, n: nat): multiset<P>
    requires n <= |entries| && parent == Dir(entries)
    decreases parent, 0, n
  {
    if n == 0 then multiset{} else Reachable(entries[n - 1]) + ReachableBelow(parent, entries, n - 1)
  }

  /** The walk order holds exactly the files below a directory, each as often as it is reachable. */
  lemma {:induction false} WalkMeetsReachable<P>(t: Tree<P>)
    requires !t.File?
    ensures multiset(WalkOrder(t)) == Reachable(t)
    decreases t, 0
  {
    if t.Dir? {
      WalkMeetsBelow(t, t.entries, |t.entries|);
    }
  }

  lemma {:induction false} WalkMeetsBelow<P>(parent: Tree<P>, entries: seq<Tree<P>>, n: nat)
    requires n <= |entries| && parent == Dir(entries)
    ensures multiset(FilesUpTo(entries, n)) + multiset(WalkBelow(parent, entries, n)) ==
            ReachableBelow(parent, entries, n)
    decreases parent, 0, n
  {
    if n > 0 {
      WalkMeetsBelow(parent, entries, n - 1);
      if !entries[n - 1].File? {
        WalkMeetsReachable(entries[n - 1]);
      }
    }
  }

  /**
   The walk examines reachable files only, each at most as often as it is reachable: as many as the
   cap allows, so all of them when the tree has no more. A root that is a file itself is examined
   whatever the cap.
   */
  lemma DirectoryWalkExact<P>(root: Tree<P>, maxFiles: nat)
    ensures multiset(Examined(root, maxFiles)) <= Reachable(root)
    ensures root.File? ==> Examined(root, maxFiles) == [root.path]
    ensures !root.File? ==>
              |Examined(root, maxFiles)| == if |Reachable(root)| <= maxFiles then |Reachable(root)| else maxFiles
    ensures |Reachable(root)| <= maxFiles ==> multiset(Examined(root, maxFiles)) == Reachable(root)
  {
    if !root.File? {
      WalkMeetsReachable(root);
      var order := WalkOrder(root);
      assert |multiset(order)| == |order|;
      if |order| > maxFiles { assert order == order[..maxFiles] + order[maxFiles..]; }
    }
  }
}
