/** The hash-driven symbol index (services/api/app/codeintel/indexer.py), for one project.
    Hashing, symbol extraction and language detection are arbitrary functions. */
module Indexer {
  import opened Wrappers

  datatype Span = Span(name: string, startLine: nat, endLine: nat)

  datatype Row = Row(id: nat, language: nat, sha: nat, symbolCount: nat)

  /** File rows by path, symbols by file id. */
  datatype Db = Db(files: map<string, Row>, symbols: map<nat, seq<Span>>, nextId: nat)

  /** A candidate; no content when it cannot be read. */
  datatype File = File(path: string, content: Option<string>)

  datatype Env = Env(sha: string -> nat, extract: (string, nat) -> seq<Span>, language: string -> nat, maxBytes: nat)

  datatype Kind = Ignored | Skipped | New | Changed

  datatype Stats = Stats(files: nat, indexed: nat, updated: nat, skipped: nat, removed: nat)

  predicate Usable(env: Env, f: File) {
    f.content.Some? && |f.content.value| <= env.maxBytes
  }

  function KindOf(env: Env, db: Db, f: File, full: bool): Kind {
    if !Usable(env, f) then Ignored
    else if f.path !in db.files then New
    else if db.files[f.path].sha == env.sha(f.content.value) && !full then Skipped
    else Changed
  }

  /** The row replaced and its symbols with it. */
  function Write(env: Env, db: Db, path: string, content: string): Db {
    var known := path in db.files;
    var id := if known then db.files[path].id else db.nextId;
    var spans := env.extract(content, env.language(path));
    Db(db.files[path := Row(id, env.language(path), env.sha(content), |spans|)], db.symbols[id := spans],
       if known then db.nextId else db.nextId + 1)
  }

  function IndexFile(env: Env, db: Db, f: File, full: bool): Db {
    match KindOf(env, db, f, full)
    case Ignored | Skipped => db
    case New | Changed => Write(env, db, f.path, f.content.value)
  }

  function IndexAll(env: Env, db: Db, tree: seq<File>, full: bool): Db {
    if tree == [] then db
    else IndexFile(env, IndexAll(env, db, tree[..|tree| - 1], full), tree[|tree| - 1], full)
  }

  function Paths(tree: seq<File>): set<string> {
    set f | f in tree :: f.path
  }

  function Remove(db: Db, path: string): Db
    requires path in db.files
  {
    db.(symbols := db.symbols - {db.files[path].id}, files := db.files - {path})
  }

  /** The rows outside `keep`, and their symbols, gone. */
  function Prune(db: Db, keep: set<string>): Db {
    var gone := set p | p in db.files && p !in keep :: db.files[p].id;
    db.(symbols := db.symbols - gone, files := map p | p in db.files && p in keep :: db.files[p])
  }

  /** `update_index`. */
  function Update(env: Env, db: Db, tree: seq<File>, full: bool): Db {
    Prune(IndexAll(env, db, tree, full), Paths(tree))
  }

  function Count(env: Env, db: Db, tree: seq<File>, full: bool, k: Kind): nat {
    if tree == [] then 0
    else Count(env, db, tree[..|tree| - 1], full, k) + if KindOf(env, db, tree[|tree| - 1], full) == k then 1 else 0
  }

  ghost predicate DistinctPaths(tree: seq<File>) {
    forall i, j | 0 <= i < j < |tree| :: tree[i].path != tree[j].path
  }

  // --------------------------------------------------------------- invariants

  /** Every row owns its symbols, and ids are handed out once. */
  ghost predicate WellFormed(db: Db) {
    && (forall p | p in db.files :: db.files[p].id in db.symbols && db.files[p].id < db.nextId)
    && (forall p, q | p in db.files && q in db.files && p != q :: db.files[p].id != db.files[q].id)
  }

  /** The row at this path was made from a content with its hash. */
  ghost predicate RowFits(env: Env, db: Db, path: string)
    requires path in db.files && db.files[path].id in db.symbols
  {
    var row := db.files[path];
    exists content :: env.sha(content) == row.sha && row.language == env.language(path)
                      && db.symbols[row.id] == env.extract(content, row.language) && row.symbolCount == |db.symbols[row.id]|
  }

  ghost predicate Consistent(env: Env, db: Db) {
    WellFormed(db) && forall p | p in db.files :: RowFits(env, db, p)
  }

  ghost predicate CollisionFree(env: Env) {
    forall a, b :: env.sha(a) == env.sha(b) ==> a == b
  }

  lemma WriteKeepsConsistent(env: Env, db: Db, path: string, content: string)
    requires Consistent(env, db)
    ensures Consistent(env, Write(env, db, path, content))
  {
    var after := Write(env, db, path, content);
    assert WellFormed(after);
    forall p | p in after.files ensures RowFits(env, after, p) {
      if p != path {
        assert RowFits(env, db, p);
      }
    }
  }

  lemma {:induction false} IndexKeepsConsistent(env: Env, db: Db, tree: seq<File>, full: bool)
    requires Consistent(env, db)
    ensures Consistent(env, IndexAll(env, db, tree, full))
  {
    if tree != [] {
      var f, before := tree[|tree| - 1], IndexAll(env, db, tree[..|tree| - 1], full);
      IndexKeepsConsistent(env, db, tree[..|tree| - 1], full);
      if KindOf(env, before, f, full) in {New, Changed} {
        WriteKeepsConsistent(env, before, f.path, f.content.value);
      }
    }
  }

  /** Indexing keeps every row made from a content with its hash. */
  lemma UpdateKeepsConsistent(env: Env, db: Db, tree: seq<File>, full: bool)
    requires Consistent(env, db)
    ensures Consistent(env, Update(env, db, tree, full))
  {
    IndexKeepsConsistent(env, db, tree, full);
  }

  // ------------------------------------------------- incremental equals full

  /** Writing a consistent row again from the content with its hash changes nothing. */
  lemma RewriteIsNoChange(env: Env, db: Db, path: string, content: string)
    requires Consistent(env, db) && CollisionFree(env)
    requires path in db.files && db.files[path].sha == env.sha(content)
    ensures Write(env, db, path, content) == db
  {
  }

  lemma {:induction false} IndexAllModes(env: Env, db: Db, tree: seq<File>)
    requires Consistent(env, db) && CollisionFree(env)
    ensures IndexAll(env, db, tree, false) == IndexAll(env, db, tree, true)
  {
    if tree != [] {
      var f, before := tree[|tree| - 1], IndexAll(env, db, tree[..|tree| - 1], true);
      IndexAllModes(env, db, tree[..|tree| - 1]);
      IndexKeepsConsistent(env, db, tree[..|tree| - 1], true);
      if KindOf(env, before, f, false) == Skipped {
        RewriteIsNoChange(env, before, f.path, f.content.value);
      }
    }
  }

  /** An incremental run leaves the whole table, ids and all, exactly as a full run does. */
  lemma IncrementalIsFull(env: Env, db: Db, tree: seq<File>)
    requires Consistent(env, db) && CollisionFree(env)
    ensures Update(env, db, tree, false) == Update(env, db, tree, true)
  {
    IndexAllModes(env, db, tree);
  }

  // ------------------------------------------------------- what the index holds

  /** What the index says about a path: language, hash and symbols. */
  function Entry(db: Db, p: string): Option<(nat, nat, seq<Span>)> {
    if p in db.files && db.files[p].id in db.symbols
    then Some((db.files[p].language, db.files[p].sha, db.symbols[db.files[p].id])) else None
  }

  function FreshEntry(env: Env, p: string, content: string): (nat, nat, seq<Span>) {
    (env.language(p), env.sha(content), env.extract(content, env.language(p)))
  }

  /** The readable content within the size cap that the tree has at this path. */
  function ContentAt(env: Env, tree: seq<File>, p: string): Option<string> {
    if tree == [] then None
    else
      var f := tree[|tree| - 1];
      if f.path == p && Usable(env, f) then f.content else ContentAt(env, tree[..|tree| - 1], p)
  }

  lemma WriteEntry(env: Env, db: Db, path: string, content: string, p: string)
    requires WellFormed(db)
    ensures WellFormed(Write(env, db, path, content))
    ensures Entry(Write(env, db, path, content), p) == if p == path then Some(FreshEntry(env, p, content)) else Entry(db, p)
  {
  }

  lemma {:induction false} IndexAllEntry(env: Env, db: Db, tree: seq<File>, p: string)
    requires WellFormed(db)
    ensures WellFormed(IndexAll(env, db, tree, true))
    ensures var content := ContentAt(env, tree, p);
            Entry(IndexAll(env, db, tree, true), p)
            == if content.Some? then Some(FreshEntry(env, p, content.value)) else Entry(db, p)
  {
    if tree != [] {
      var f, before := tree[|tree| - 1], IndexAll(env, db, tree[..|tree| - 1], true);
      IndexAllEntry(env, db, tree[..|tree| - 1], p);
      if Usable(env, f) {
        hide Write, Entry, WellFormed;
        WriteEntry(env, before, f.path, f.content.value, p);
      }
    }
  }

  /** After a run, a path that is no candidate has no entry, a readable candidate has the
      entry its content calls for, and any other candidate keeps the entry it had. */
  lemma UpdateEntry(env: Env, db: Db, tree: seq<File>, full: bool, p: string)
    requires Consistent(env, db) && CollisionFree(env)
    ensures var content := ContentAt(env, tree, p);
            Entry(Update(env, db, tree, full), p)
            == if p !in Paths(tree) then None
               else if content.Some? then Some(FreshEntry(env, p, content.value))
               else Entry(db, p)
  {
    IncrementalIsFull(env, db, tree);
    IndexAllEntry(env, db, tree, p);
  }

  lemma {:induction false} ContentOf(env: Env, tree: seq<File>, k: nat)
    requires k < |tree| && DistinctPaths(tree)
    ensures ContentAt(env, tree, tree[k].path)
            == if tree[k].content.Some? && |tree[k].content.value| <= env.maxBytes then tree[k].content else None
  {
    var n := |tree| - 1;
    if k < n {
      assert tree[..n][k] == tree[k];
      ContentOf(env, tree[..n], k);
    } else {
      ContentMissing(env, tree[..n], tree[n].path);
    }
  }

  lemma {:induction false} ContentMissing(env: Env, tree: seq<File>, p: string)
    requires forall i | 0 <= i < |tree| :: tree[i].path != p
    ensures ContentAt(env, tree, p) == None
  {
    if tree != [] {
      ContentMissing(env, tree[..|tree| - 1], p);
    }
  }

  /** A candidate's entry after a run: made from its content, unless that cannot be read or is over
      the size cap; then whatever was there before. */
  lemma UpdateCandidate(env: Env, db: Db, tree: seq<File>, full: bool, k: nat)
    requires Consistent(env, db) && CollisionFree(env) && k < |tree| && DistinctPaths(tree)
    ensures var f := tree[k];
            Entry(Update(env, db, tree, full), f.path)
            == if f.content.None? || |f.content.value| > env.maxBytes then Entry(db, f.path)
               else Some((env.language(f.path), env.sha(f.content.value), env.extract(f.content.value, env.language(f.path))))
  {
    UpdateEntry(env, db, tree, full, tree[k].path);
    ContentOf(env, tree, k);
    assert tree[k] in tree;
  }

  const EMPTY := Db(map[], map[], 0)

  ghost predicate SameEntries(a: Db, b: Db) {
    forall p :: Entry(a, p) == Entry(b, p)
  }

  /** Some candidate that cannot be read now still has a row from before. */
  ghost predicate StaleRow(env: Env, db: Db, tree: seq<File>, p: string) {
    p in Paths(tree) && ContentAt(env, tree, p).None? && p in db.files
  }

  /** A run agrees with a rebuild from nothing exactly when no unreadable or oversized
      candidate has an old row. */
  lemma RebuildExactlyWhen(env: Env, db: Db, tree: seq<File>, full: bool)
    requires Consistent(env, db) && CollisionFree(env)
    ensures SameEntries(Update(env, db, tree, full), Update(env, EMPTY, tree, true))
            <==> forall p :: !StaleRow(env, db, tree, p)
  {
    var run, rebuilt := Update(env, db, tree, full), Update(env, EMPTY, tree, true);
    forall p ensures Entry(run, p) == Entry(rebuilt, p) <==> !StaleRow(env, db, tree, p) {
      UpdateEntry(env, db, tree, full, p);
      UpdateEntry(env, EMPTY, tree, true, p);
    }
  }

  /** A file that was indexed and can no longer be read: its row stays, and a rebuild has none. */
  lemma OldRowStays(env: Env, path: string, content: string)
    requires CollisionFree(env) && |content| <= env.maxBytes
    ensures var db := Update(env, EMPTY, [File(path, Some(content))], false);
            var gone := [File(path, None)];
            && StaleRow(env, db, gone, path)
            && Entry(Update(env, db, gone, false), path) == Some(FreshEntry(env, path, content))
            && Entry(Update(env, EMPTY, gone, true), path) == None
  {
    var tree, gone := [File(path, Some(content))], [File(path, None)];
    var db := Update(env, EMPTY, tree, false);
    assert Consistent(env, EMPTY);
    UpdateKeepsConsistent(env, EMPTY, tree, false);
    assert tree[..0] == [] && gone[..0] == [] && tree[0] in tree && gone[0] in gone;
    assert ContentAt(env, tree, path) == Some(content) && ContentAt(env, gone, path) == None;
    hide Update, ContentAt, FreshEntry, Consistent, CollisionFree;
    UpdateEntry(env, EMPTY, tree, false, path);
    UpdateEntry(env, db, gone, false, path);
    UpdateEntry(env, EMPTY, gone, true, path);
  }

  // ------------------------------------------------------------ running again

  /** Indexing one file leaves no work for it. */
  lemma SettledByIndexing(env: Env, db: Db, f: File)
    ensures KindOf(env, IndexFile(env, db, f, false), f, false) in {Ignored, Skipped}
  {
  }

  /** After indexing a prefix, none of its files has work left. */
  lemma {:induction false} SettledByAll(env: Env, db: Db, tree: seq<File>, i: nat)
    requires DistinctPaths(tree) && i < |tree|
    ensures KindOf(env, IndexAll(env, db, tree, false), tree[i], false) in {Ignored, Skipped}
  {
    var n := |tree| - 1;
    var before := IndexAll(env, db, tree[..n], false);
    if i == n {
      SettledByIndexing(env, before, tree[i]);
    } else {
      SettledByAll(env, db, tree[..n], i);
    }
  }

  ghost predicate AllSettled(env: Env, db: Db, tree: seq<File>) {
    forall i | 0 <= i < |tree| :: KindOf(env, db, tree[i], false) in {Ignored, Skipped}
  }

  lemma {:induction false} SettledIsNoWork(env: Env, db: Db, tree: seq<File>)
    requires AllSettled(env, db, tree)
    ensures IndexAll(env, db, tree, false) == db
    ensures Count(env, db, tree, false, New) == 0 && Count(env, db, tree, false, Changed) == 0
  {
    if tree != [] {
      var n := |tree| - 1;
      assert AllSettled(env, db, tree[..n]);
      SettledIsNoWork(env, db, tree[..n]);
    }
  }

  /** A second run on an unchanged tree finds nothing to index, update or remove. */
  lemma SecondRunOnlySkips(env: Env, db: Db, tree: seq<File>)
    requires DistinctPaths(tree)
    ensures var once := Update(env, db, tree, false);
            && Update(env, once, tree, false) == once
            && Count(env, once, tree, false, New) == 0 && Count(env, once, tree, false, Changed) == 0
            && once.files.Keys - Paths(tree) == {}
  {
    var all := IndexAll(env, db, tree, false);
    forall i | 0 <= i < |tree| ensures KindOf(env, all, tree[i], false) in {Ignored, Skipped} {
      SettledByAll(env, db, tree, i);
    }
    SettledIsNoWork(env, Prune(all, Paths(tree)), tree);
  }

  lemma {:induction false} IndexAllJoin(env: Env, db: Db, a: seq<File>, b: seq<File>)
    ensures IndexAll(env, db, a + b, false) == IndexAll(env, IndexAll(env, db, a, false), b, false)
    decreases |b|
  {
    if b == [] {
      assert a + b == a;
    } else {
      var n := |b| - 1;
      assert (a + b)[..|a + b| - 1] == a + b[..n];
      IndexAllJoin(env, db, a, b[..n]);
    }
  }

  /** A run cut short after `k` files and started again ends where the uninterrupted run does. */
  lemma CrashAndRerun(env: Env, db: Db, tree: seq<File>, k: nat)
    requires DistinctPaths(tree) && k <= |tree|
    ensures Update(env, IndexAll(env, db, tree[..k], false), tree, false) == Update(env, db, tree, false)
  {
    var done, rest := tree[..k], tree[k..];
    var partial := IndexAll(env, db, done, false);
    assert tree == done + rest;
    IndexAllJoin(env, partial, done, rest);
    IndexAllJoin(env, db, done, rest);
    forall i | 0 <= i < |done| ensures KindOf(env, partial, done[i], false) in {Ignored, Skipped} {
      SettledByAll(env, db, done, i);
    }
    SettledIsNoWork(env, partial, done);
  }

  // ------------------------------------------------------------------- counts

  /** Every candidate is counted once, one way. */
  lemma {:induction false} CountsAddUp(env: Env, db: Db, tree: seq<File>, full: bool)
    ensures Count(env, db, tree, full, Ignored) + Count(env, db, tree, full, Skipped)
            + Count(env, db, tree, full, New) + Count(env, db, tree, full, Changed) == |tree|
  {
    if tree != [] {
      CountsAddUp(env, db, tree[..|tree| - 1], full);
    }
  }

  /** The candidate paths that had no row. */
  function FreshPaths(env: Env, db: Db, tree: seq<File>, full: bool): set<string> {
    if tree == [] then {}
    else
      var f := tree[|tree| - 1];
      FreshPaths(env, db, tree[..|tree| - 1], full) + if KindOf(env, db, f, full) == New then {f.path} else {}
  }

  lemma {:induction false} FreshPathsWithin(env: Env, db: Db, tree: seq<File>, full: bool)
    ensures FreshPaths(env, db, tree, full) <= Paths(tree) && FreshPaths(env, db, tree, full) !! db.files.Keys
  {
    if tree != [] {
      FreshPathsWithin(env, db, tree[..|tree| - 1], full);
      hide Paths, Usable;
    }
  }

  lemma {:induction false} FreshPathsCount(env: Env, db: Db, tree: seq<File>, full: bool)
    requires DistinctPaths(tree)
    ensures |FreshPaths(env, db, tree, full)| == Count(env, db, tree, full, New)
  {
    if tree != [] {
      var n := |tree| - 1;
      FreshPathsCount(env, db, tree[..n], full);
      FreshPathsWithin(env, db, tree[..n], full);
      hide Paths, Usable, KindOf;
    }
  }

  lemma {:induction false} IndexAllKeys(env: Env, db: Db, tree: seq<File>, full: bool)
    ensures IndexAll(env, db, tree, full).files.Keys == db.files.Keys + FreshPaths(env, db, tree, full)
  {
    if tree != [] {
      IndexAllKeys(env, db, tree[..|tree| - 1], full);
    }
  }

  lemma KeptAndGone<T>(before: set<T>, added: set<T>, keep: set<T>)
    requires added !! before && added <= keep
    ensures |(before + added) * keep| + |before - keep| == |before| + |added|
  {
    var all := before + added;
    assert all == all * keep + (before - keep);
  }

  lemma PruneKeys(db: Db, keep: set<string>)
    ensures Prune(db, keep).files.Keys == db.files.Keys * keep
  {
  }

  /** Rows afterwards plus rows removed are the rows before plus the newly indexed ones. */
  lemma RowsConserved(env: Env, db: Db, tree: seq<File>, full: bool)
    requires DistinctPaths(tree)
    ensures |Update(env, db, tree, full).files| + |db.files.Keys - Paths(tree)|
            == |db.files| + Count(env, db, tree, full, New)
  {
    hide IndexAll, Count, FreshPaths, Paths, Prune;
    IndexAllKeys(env, db, tree, full);
    FreshPathsCount(env, db, tree, full);
    FreshPathsWithin(env, db, tree, full);
    KeptAndGone(db.files.Keys, FreshPaths(env, db, tree, full), Paths(tree));
    PruneKeys(IndexAll(env, db, tree, full), Paths(tree));
  }

  // -------------------------------------------------------------- the program

  /** Against the rows the run started from, since candidates are distinct. */
  lemma {:induction false} KindUnchanged(env: Env, db: Db, tree: seq<File>, f: File, full: bool)
    requires forall i | 0 <= i < |tree| :: tree[i].path != f.path
    ensures KindOf(env, IndexAll(env, db, tree, full), f, full) == KindOf(env, db, f, full)
  {
    if tree != [] {
      KindUnchanged(env, db, tree[..|tree| - 1], f, full);
    }
  }

  class CodeIndex {
    var files: map<string, Row>
    var symbols: map<nat, seq<Span>>
    var nextId: nat

    function View(): Db
      reads this
    {
      Db(files, symbols, nextId)
    }

    constructor ()
      ensures View() == EMPTY
    {
      files, symbols, nextId := map[], map[], 0;
    }

    /** The body of the first loop for a file that needs work. */
    method Reindex(env: Env, path: string, content: string)
      modifies this
      ensures View() == Write(env, old(View()), path, content)
    {
      var spans := env.extract(content, env.language(path));
      var id := nextId;
      if path in files {
        id := files[path].id;
        symbols := symbols - {id};
      } else {
        nextId := nextId + 1;
      }
      files := files[path := Row(id, env.language(path), env.sha(content), |spans|)];
      symbols := symbols[id := spans];
    }

    /** The first loop of `update_index`, against the rows the run started from. */
    method IndexCandidates(env: Env, tree: seq<File>, full: bool) returns (indexed: nat, updated: nat, skipped: nat)
      requires DistinctPaths(tree)
      modifies this
      ensures View() == IndexAll(env, old(View()), tree, full)
      ensures indexed == Count(env, old(View()), tree, full, New)
      ensures updated == Count(env, old(View()), tree, full, Changed)
      ensures skipped == Count(env, old(View()), tree, full, Skipped)
    {
      ghost var start := View();
      var existing := files;
      indexed, updated, skipped := 0, 0, 0;
      for i := 0 to |tree|
        invariant View() == IndexAll(env, start, tree[..i], full)
        invariant indexed == Count(env, start, tree[..i], full, New)
        invariant updated == Count(env, start, tree[..i], full, Changed)
        invariant skipped == Count(env, start, tree[..i], full, Skipped)
      {
        assert tree[..i + 1][..i] == tree[..i];
        KindUnchanged(env, start, tree[..i], tree[i], full);
        var f := tree[i];
        if Usable(env, f) {
          if f.path in existing && existing[f.path].sha == env.sha(f.content.value) && !full {
            skipped := skipped + 1;
          } else {
            if f.path in existing {
              updated := updated + 1;
            } else {
              indexed := indexed + 1;
            }
            Reindex(env, f.path, f.content.value);
          }
        }
      }
      assert tree[..|tree|] == tree;
    }

    /** The pruning loop, over the rows the run started from. */
    method RemoveUnseen(existing: set<string>, seen: set<string>) returns (removed: nat)
      requires WellFormed(View()) && existing <= files.Keys <= existing + seen
      modifies this
      ensures View() == Prune(old(View()), seen)
      ensures removed == |existing - seen|
    {
      hide Prune, Remove, WellFormed;
      ghost var start := View();
      removed := 0;
      var todo := existing;
      PruneNothing(start, seen + existing);
      while todo != {}
        invariant todo <= existing && removed + |todo - seen| == |existing - seen|
        invariant View() == Prune(start, seen + todo)
        decreases |todo|
      {
        var p :| p in todo;
        var rest := todo - {p};
        TakeOne(todo, seen, p);
        if p !in seen {
          PruneOne(start, seen + rest, p);
          RemoveRow(p);
          removed := removed + 1;
        }
        todo := rest;
      }
      assert seen + {} == seen;
    }

    method RemoveRow(p: string)
      requires p in files
      modifies this
      ensures View() == Remove(old(View()), p)
    {
      symbols := symbols - {files[p].id};
      files := files - {p};
    }

    /** `update_index`. */
    method UpdateIndex(env: Env, tree: seq<File>, full: bool) returns (stats: Stats)
      requires Consistent(env, View()) && DistinctPaths(tree)
      modifies this
      ensures View() == Update(env, old(View()), tree, full)
      ensures Consistent(env, View())
      ensures stats == Stats(|tree|, Count(env, old(View()), tree, full, New), Count(env, old(View()), tree, full, Changed),
                             Count(env, old(View()), tree, full, Skipped), |old(files).Keys - Paths(tree)|)
    {
      ghost var start := View();
      var existing := files.Keys;
      var seen := set f | f in tree :: f.path;
      IndexKeepsConsistent(env, start, tree, full);
      IndexAllKeys(env, start, tree, full);
      FreshPathsWithin(env, start, tree, full);
      UpdateKeepsConsistent(env, start, tree, full);
      var indexed, updated, skipped := IndexCandidates(env, tree, full);
      var removed := RemoveUnseen(existing, seen);
      stats := Stats(|tree|, indexed, updated, skipped, removed);
    }
  }

  /** Moving one path out of the work list. */
  lemma TakeOne(todo: set<string>, seen: set<string>, p: string)
    requires p in todo
    ensures var rest := todo - {p};
            if p in seen then rest - seen == todo - seen && seen + rest == seen + todo
            else |todo - seen| == |rest - seen| + 1 && seen + rest + {p} == seen + todo
  {
    var rest := todo - {p};
    if p in seen {
      assert rest - seen == todo - seen && seen + rest == seen + todo;
    } else {
      assert todo - seen == (rest - seen) + {p} && seen + rest + {p} == seen + todo;
    }
  }

  lemma PruneOne(db: Db, keep: set<string>, p: string)
    requires WellFormed(db) && p in db.files && p !in keep
    ensures p in Prune(db, keep + {p}).files && Prune(db, keep) == Remove(Prune(db, keep + {p}), p)
  {
  }

  lemma PruneNothing(db: Db, keep: set<string>)
    requires db.files.Keys <= keep
    ensures Prune(db, keep) == db
  {
  }
}
