/** The worklist walk over a directory listing service, as used when entries come without detail. */
module DirectoryWalk {
  import opened Wrappers

  datatype Entry = Entry(name: Option<string>, path: Option<string>, directory: bool)

  /** What listing each directory gives; listing any other path raises. */
  type FileSystem = map<string, seq<Entry>>

  /** The name, or else the path; empty when neither is set. */
  function NameOf(e: Entry): string {
    if e.name.Some? && e.name.value != "" then e.name.value
    else if e.path.Some? then e.path.value else ""
  }

  predicate IsDirectory(e: Entry) {
    var name := NameOf(e);
    name != "" && (e.directory || name[|name| - 1] == '/')
  }

  /** The walk goes from p into d exactly when the listing of p has an entry that is called d, by its name or, for want of one, by
      its path, and that is marked as a directory or whose name ends with a slash. */
  lemma ChildExactly(fs: FileSystem, p: string, d: string)
    ensures Child(fs, p, d) <==>
      && p in fs && d != ""
      && exists e <- fs[p] ::
           && (if e.name == None || e.name == Some("") then e.path == Some(d) else e.name == Some(d))
           && (e.directory || d[|d| - 1] == '/')
  {
  }

  function Named(entries: seq<Entry>): seq<Entry> {
    if entries == [] then []
    else
      var n := |entries| - 1;
      Named(entries[..n]) + if NameOf(entries[n]) != "" then [entries[n]] else []
  }

  /** The named entries of the directories that can be listed, one after the other. */
  function Listing(fs: FileSystem, directories: seq<string>): seq<Entry> {
    if directories == [] then []
    else
      var n := |directories| - 1;
      Listing(fs, directories[..n]) + if directories[n] in fs then Named(fs[directories[n]]) else []
  }

  ghost predicate Child(fs: FileSystem, parent: string, child: string) {
    parent in fs && exists e <- fs[parent] :: IsDirectory(e) && NameOf(e) == child
  }

  /** A path of directories, each listed in the one before. */
  ghost predicate IsTrail(fs: FileSystem, trail: seq<string>) {
    trail != [] && forall i :: 0 < i < |trail| ==> Child(fs, trail[i - 1], trail[i])
  }

  ghost predicate Reachable(fs: FileSystem, root: string, d: string) {
    exists trail :: IsTrail(fs, trail) && trail[0] == root && trail[|trail| - 1] == d
  }

  /** An entry with a name in a directory that can be reached and listed. */
  ghost predicate Found(fs: FileSystem, root: string, e: Entry) {
    NameOf(e) != "" && exists d :: d in fs && Reachable(fs, root, d) && e in fs[d]
  }

  ghost function AllNames(fs: FileSystem): set<string> {
    set d, e | d in fs && e in fs[d] :: NameOf(e)
  }

  /** The root stands on the stack without having been seen; everything else seen is on it or done, once. */
  ghost predicate Accounted(stack: seq<string>, done: seq<string>, seen: set<string>, root: string) {
    forall d :: Times(stack, d) + Times(done, d) == (if d in seen then 1 else 0) + (if d == root then 1 else 0)
  }

  function Times(s: seq<string>, d: string): nat {
    multiset(s)[d]
  }

  ghost predicate AllReachable(fs: FileSystem, root: string, names: set<string>) {
    forall d <- names :: Reachable(fs, root, d) && exists p :: Reachable(fs, root, p) && Child(fs, p, d)
  }

  ghost predicate ChildrenSeen(fs: FileSystem, done: seq<string>, seen: set<string>) {
    forall p, d :: p in done && Child(fs, p, d) ==> d in seen
  }

  ghost predicate Sound(fs: FileSystem, root: string, stack: seq<string>, done: seq<string>, seen: set<string>) {
    Accounted(stack, done, seen, root) && seen <= AllNames(fs) && AllReachable(fs, root, seen)
  }

  /** The inner loop: the entries of one directory are added to the files, and its new directories to the stack. */
  method TakeEntries(fs: FileSystem, logDir: string, current: string, files: seq<Entry>, stack: seq<string>,
                     seen: set<string>, ghost done: seq<string>)
    returns (files': seq<Entry>, stack': seq<string>, seen': set<string>)
    requires current in fs && Reachable(fs, logDir, current)
    requires Sound(fs, logDir, stack, done, seen)
    ensures files' == files + Named(fs[current])
    ensures Sound(fs, logDir, stack', done, seen') && DirectoriesSeen(fs[current], seen')
    ensures (seen' == seen && stack' == stack) || seen < seen'
  {
    var entries := fs[current];
    files', stack', seen' := files, stack, seen;
    for i := 0 to |entries|
      invariant Sound(fs, logDir, stack', done, seen')
      invariant (seen' == seen && stack' == stack) || seen < seen'
      invariant DirectoriesSeen(entries[..i], seen')
      invariant files' == files + Named(entries[..i])
    {
      var entry := entries[i];
      NamedAppend(files, entries, i);
      var name := NameOf(entry);
      if name == "" { continue; }
      files' := files' + [entry];
      if (entry.directory || name[|name| - 1] == '/') && name !in seen' {
        Pushed(fs, stack', done, seen', logDir, current, entry);
        seen' := seen' + {name};
        stack' := stack' + [name];
      }
    }
    assert entries[..|entries|] == entries;
  }

  /**
   The walk: it ends on every file system, expands each directory that can be reached once, the root a second time when a
   directory that can be reached lists it, and returns every named entry of every directory it could list. `expanded`
   records the directories taken from the stack.
   */
  method WalkWithoutDetail(fs: FileSystem, logDir: string) returns (files: seq<Entry>, ghost expanded: seq<string>)
    ensures files == Listing(fs, expanded)
    ensures forall d :: d in expanded <==> Reachable(fs, logDir, d)
    ensures forall d <- expanded :: d != logDir ==> Times(expanded, d) == 1
    ensures Times(expanded, logDir) == if ListedAgain(fs, logDir) then 2 else 1
    ensures forall e :: e in files <==> Found(fs, logDir, e)
  {
    files, expanded := [], [];
    var stack, seen: set<string> := [logDir], {};
    while stack != []
      invariant Sound(fs, logDir, stack, expanded, seen)
      invariant ChildrenSeen(fs, expanded, seen)
      invariant files == Listing(fs, expanded)
      decreases AllNames(fs) - seen, |stack|
    {
      var n := |stack| - 1;
      var current := stack[n];
      ghost var before, beforeSeen := expanded, seen;
      Popped(fs, stack, expanded, seen, logDir);
      stack := stack[..n];
      expanded := expanded + [current];
      ListingAppend(fs, before, current);
      if current !in fs {
        AddExpanded(fs, before, beforeSeen, current, [], seen);
        continue;
      }
      files, stack, seen := TakeEntries(fs, logDir, current, files, stack, seen, expanded);
      AddExpanded(fs, before, beforeSeen, current, fs[current], seen);
    }
    Done(fs, expanded, seen, logDir);
    AllFound(fs, expanded, logDir);
  }

  ghost predicate DirectoriesSeen(entries: seq<Entry>, seen: set<string>) {
    forall e <- entries :: IsDirectory(e) ==> NameOf(e) in seen
  }

  lemma ListingAppend(fs: FileSystem, done: seq<string>, d: string)
    ensures Listing(fs, done + [d]) == Listing(fs, done) + if d in fs then Named(fs[d]) else []
  {
    assert (done + [d])[..|done|] == done;
  }

  /** One more entry behind the files so far. */
  lemma NamedAppend(files: seq<Entry>, entries: seq<Entry>, i: nat)
    requires i < |entries|
    ensures entries[..i + 1] == entries[..i] + [entries[i]]
    ensures NameOf(entries[i]) != "" ==>
              files + Named(entries[..i + 1]) == (files + Named(entries[..i])) + [entries[i]]
    ensures NameOf(entries[i]) == "" ==> Named(entries[..i + 1]) == Named(entries[..i])
  {
    assert entries[..i + 1][..i] == entries[..i];
  }

  lemma AddExpanded(fs: FileSystem, done: seq<string>, before: set<string>, d: string, entries: seq<Entry>,
                    seen: set<string>)
    requires ChildrenSeen(fs, done, before) && before <= seen
    requires d in fs ==> entries == fs[d]
    requires DirectoriesSeen(entries, seen)
    ensures ChildrenSeen(fs, done + [d], seen)
  {
  }

  lemma AllFound(fs: FileSystem, done: seq<string>, root: string)
    requires forall d :: d in done <==> Reachable(fs, root, d)
    ensures forall e :: e in Listing(fs, done) <==> Found(fs, root, e)
  {
    ListingMembers(fs, done);
  }

  ghost predicate ListedAgain(fs: FileSystem, root: string) {
    exists p :: Reachable(fs, root, p) && Child(fs, p, root)
  }

  lemma RootIsReachable(fs: FileSystem, root: string)
    ensures Reachable(fs, root, root)
  {
    assert IsTrail(fs, [root]);
  }

  lemma ChildIsReachable(fs: FileSystem, root: string, p: string, d: string)
    requires Reachable(fs, root, p) && Child(fs, p, d)
    ensures Reachable(fs, root, d)
  {
    var trail :| IsTrail(fs, trail) && trail[0] == root && trail[|trail| - 1] == p;
    assert IsTrail(fs, trail + [d]);
  }

  /** What is taken from the stack can be reached. */
  lemma Popped(fs: FileSystem, stack: seq<string>, done: seq<string>, seen: set<string>, root: string)
    requires stack != [] && Sound(fs, root, stack, done, seen)
    ensures Reachable(fs, root, stack[|stack| - 1])
    ensures Sound(fs, root, stack[..|stack| - 1], done + [stack[|stack| - 1]], seen)
  {
    var n := |stack| - 1;
    RootIsReachable(fs, root);
    assert stack == stack[..n] + [stack[n]];
    assert Times(stack, stack[n]) > 0;
  }

  lemma Pushed(fs: FileSystem, stack: seq<string>, done: seq<string>, seen: set<string>, root: string,
               current: string, entry: Entry)
    requires current in fs && entry in fs[current] && IsDirectory(entry) && NameOf(entry) !in seen
    requires Reachable(fs, root, current) && Sound(fs, root, stack, done, seen)
    ensures Sound(fs, root, stack + [NameOf(entry)], done, seen + {NameOf(entry)})
  {
    ChildIsReachable(fs, root, current, NameOf(entry));
  }

  /** Whoever follows a trail from the root stays among the expanded directories. */
  lemma {:induction false} TrailExpanded(fs: FileSystem, done: seq<string>, trail: seq<string>)
    requires IsTrail(fs, trail) && trail[0] in done
    requires forall p, d :: p in done && Child(fs, p, d) ==> d in done
    ensures trail[|trail| - 1] in done
  {
    var n := |trail| - 1;
    if n > 0 {
      TrailExpanded(fs, done, trail[..n]);
      assert Child(fs, trail[n - 1], trail[n]);
    }
  }

  lemma Done(fs: FileSystem, done: seq<string>, seen: set<string>, root: string)
    requires Sound(fs, root, [], done, seen) && ChildrenSeen(fs, done, seen)
    ensures forall d :: d in done <==> Reachable(fs, root, d)
    ensures forall d <- done :: d != root ==> Times(done, d) == 1
    ensures Times(done, root) == if ListedAgain(fs, root) then 2 else 1
  {
    forall d ensures d in done <==> d in seen || d == root {
      assert Times([], d) + Times(done, d) == (if d in seen then 1 else 0) + (if d == root then 1 else 0);
    }
    RootIsReachable(fs, root);
    forall d | Reachable(fs, root, d) ensures d in done {
      var trail :| IsTrail(fs, trail) && trail[0] == root && trail[|trail| - 1] == d;
      TrailExpanded(fs, done, trail);
    }
  }

  lemma {:induction false} NamedMembers(entries: seq<Entry>)
    ensures forall e :: e in Named(entries) <==> e in entries && NameOf(e) != ""
  {
    if entries != [] {
      var n := |entries| - 1;
      NamedMembers(entries[..n]);
      assert entries == entries[..n] + [entries[n]];
    }
  }

  ghost predicate Lists(fs: FileSystem, directories: seq<string>, e: Entry) {
    NameOf(e) != "" && exists d :: d in directories && d in fs && e in fs[d]
  }

  lemma {:induction false} ListingMembers(fs: FileSystem, directories: seq<string>)
    ensures forall e :: e in Listing(fs, directories) <==> Lists(fs, directories, e)
  {
    if directories != [] {
      var n := |directories| - 1;
      var d := directories[n];
      ListingMembers(fs, directories[..n]);
      if d in fs { NamedMembers(fs[d]); }
      forall e ensures Lists(fs, directories, e) <==>
          Lists(fs, directories[..n], e) || (NameOf(e) != "" && d in fs && e in fs[d])
      {
        if Lists(fs, directories, e) && !(d in fs && e in fs[d]) {
          var d' :| d' in directories && d' in fs && e in fs[d'];
          assert d' in directories[..n];
        }
        if Lists(fs, directories[..n], e) {
          var d' :| d' in directories[..n] && d' in fs && e in fs[d'];
          assert d' in directories;
        }
      }
    }
  }
}
