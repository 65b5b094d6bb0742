/** `scan_paths`: expands the paths a user dropped (files and directories)
    into the flat list of image files to compress. */
module Scan {
  import opened Common
  import opened Paths

  /** What `DirEntry::file_type` reports for an entry of a walk. */
  datatype Kind = RegularFile | Directory | OtherKind

  /** One successful item of a `WalkDir` iteration. */
  datatype Entry = Entry(path: string, kind: Kind)

  /** The part of the filesystem below one path, as a walk sees it. */
  datatype Node =
    | File(path: string)
      /** a regular file */
    | Special(path: string)
      /** a socket, device or other entry that is neither a regular file nor
          a directory; inside a walk, also a symbolic link, which the walk
          does not follow (a top-level input path maps to the node of its
          target, since `is_dir` and `is_file` follow links) */
    | Dir(path: string, children: seq<Node>)
      /** a directory whose entries can be listed, in enumeration order */
    | Unlistable(path: string, error: string)
      /** a directory that can be stat'ed but not listed */
    | Broken(path: string, error: string)
      /** an entry whose metadata cannot be read */

  /** The node each existing path names; a path outside the map does not exist. */
  type FileSystem = map<string, Node>

  /** `Path::is_dir`. */
  predicate IsDirNode(n: Node)
  {
    n.Dir? || n.Unlistable?
  }

  /** The items a `WalkDir` over `n` yields, depth first, each directory
      before its contents, entries in enumeration order. */
  function Walk(n: Node): seq<Result<Entry>>
  {
    match n
    case File(p) => [Ok(Entry(p, RegularFile))]
    case Special(p) => [Ok(Entry(p, OtherKind))]
    case Dir(p, cs) => [Ok(Entry(p, Directory))] + WalkAll(cs)
    case Unlistable(p, e) => [Ok(Entry(p, Directory)), Err(e)]
    case Broken(_, e) => [Err(e)]
  }

  /** The walks of the sibling nodes `cs`, one after another. */
  function WalkAll(cs: seq<Node>): seq<Result<Entry>>
  {
    if cs == [] then [] else WalkAll(cs[..|cs| - 1]) + Walk(cs[|cs| - 1])
  }

  /** `filter_map(|e| e.ok())`: the successful items, failed ones dropped. */
  function Oks(ws: seq<Result<Entry>>): (r: seq<Entry>)
    ensures |r| <= |ws|
  {
    if ws == [] then []
    else Oks(ws[..|ws| - 1]) + (if ws[|ws| - 1].Ok? then [ws[|ws| - 1].value] else [])
  }

  /** The test an entry of a directory walk passes to be pushed. */
  predicate Keeps(e: Entry)
  {
    e.kind == RegularFile && IsSupportedPath(e.path)
  }

  /** The paths of the kept entries, in walk order. */
  function Kept(es: seq<Entry>): seq<string>
  {
    if es == [] then []
    else Kept(es[..|es| - 1]) + (if Keeps(es[|es| - 1]) then [es[|es| - 1].path] else [])
  }

  /** What one input path contributes to the result. */
  function Expand(fs: FileSystem, p: string): seq<string>
  {
    if p in fs && IsDirNode(fs[p]) then Kept(Oks(Walk(fs[p])))
    else if p in fs && fs[p].File? && IsSupportedPath(p) then [p]
    else []
  }

  /** The list `scan_paths` returns: each input's contribution, in input order. */
  function ScanSpec(fs: FileSystem, paths: seq<string>): seq<string>
  {
    if paths == [] then []
    else ScanSpec(fs, paths[..|paths| - 1]) + Expand(fs, paths[|paths| - 1])
  }

  /** `scan_paths`: loop over the inputs, walking directories and pushing
      every supported regular file. */
  method ScanPaths(fs: FileSystem, paths: seq<string>) returns (results: seq<string>)
    ensures results == ScanSpec(fs, paths)
  {
    results := [];
    var i := 0;
    while i < |paths|
      invariant 0 <= i <= |paths|
      invariant results == ScanSpec(fs, paths[..i])
    {
      ScanStep(fs, paths, i);
      results := PushInput(fs, paths[i], results);
      i := i + 1;
    }
    assert paths[..i] == paths;
  }

  /** The body of the outer loop of `scan_paths` for one input path `p`: a
      directory is walked, a regular file is tested, anything else is passed over. */
  method PushInput(fs: FileSystem, p: string, results: seq<string>) returns (out: seq<string>)
    ensures out == results + Expand(fs, p)
  {
    out := results;
    if p in fs && IsDirNode(fs[p]) {
      out := PushWalkedFiles(Walk(fs[p]), out);
    } else if p in fs && fs[p].File? {
      var ext := LoweredExtension(p);
      if IsSupportedExtension(ext) {
        out := out + [p];
      }
    }
  }

  /** The inner loop of `scan_paths`: over the successful items of one
      walk, push the path of every supported regular file onto `results`. */
  method PushWalkedFiles(walk: seq<Result<Entry>>, results: seq<string>) returns (out: seq<string>)
    ensures out == results + Kept(Oks(walk))
  {
    out := results;
    var j := 0;
    while j < |walk|
      invariant 0 <= j <= |walk|
      invariant out == results + Kept(Oks(walk[..j]))
    {
      KeptOksStep(walk, j);
      out := PushIfKept(walk[j], out);
      j := j + 1;
    }
    assert walk[..j] == walk;
  }

  /** The body of the inner loop of `scan_paths` for one walk item: a
      successful regular-file entry with a supported extension is pushed. */
  method PushIfKept(item: Result<Entry>, results: seq<string>) returns (out: seq<string>)
    ensures out == results + (if item.Ok? && Keeps(item.value) then [item.value.path] else [])
  {
    out := results;
    if item.Ok? {
      var entry := item.value;
      if entry.kind == RegularFile {
        var ext := LoweredExtension(entry.path);
        if IsSupportedExtension(ext) {
          out := out + [entry.path];
        }
      }
    }
  }

  /** Keeping one more entry appends its path exactly when it passes. */
  lemma KeptSnoc(es: seq<Entry>, e: Entry)
    ensures Kept(es + [e]) == Kept(es) + (if Keeps(e) then [e.path] else [])
  {
    assert (es + [e])[..|es|] == es;
  }

  /** Every kept path passes the extension filter. */
  lemma {:induction false} KeptSupported(es: seq<Entry>)
    ensures forall r | r in Kept(es) :: IsSupportedPath(r)
  {
    if es != [] { KeptSupported(es[..|es| - 1]); }
  }

  /** Every path `scan_paths` returns has a lowered extension of `jpg`,
      `jpeg` or `png`. */
  lemma {:induction false} ScanOnlySupported(fs: FileSystem, paths: seq<string>)
    ensures forall r | r in ScanSpec(fs, paths) :: IsSupportedPath(r)
  {
    if paths != [] {
      ScanOnlySupported(fs, paths[..|paths| - 1]);
      var p := paths[|paths| - 1];
      if p in fs && IsDirNode(fs[p]) { KeptSupported(Oks(Walk(fs[p]))); }
    }
  }

  /** Inputs are handled in order and results only appended: scanning
      `a + b` is scanning `a`, then `b`. */
  lemma {:induction false} ScanAppend(fs: FileSystem, a: seq<string>, b: seq<string>)
    ensures ScanSpec(fs, a + b) == ScanSpec(fs, a) + ScanSpec(fs, b)
  {
    if b == [] {
      assert a + b == a;
    } else {
      assert (a + b)[..|a + b| - 1] == a + b[..|b| - 1];
      ScanAppend(fs, a, b[..|b| - 1]);
    }
  }

  /** Nothing is deduplicated: naming the same supported file twice lists it twice. */
  lemma RepeatedFileListedTwice(fs: FileSystem, p: string)
    requires p in fs && fs[p].File? && IsSupportedPath(p)
    ensures ScanSpec(fs, [p, p]) == [p, p]
  {
    ScanSnoc(fs, [], p);
    ScanSnoc(fs, [p], p);
    assert [] + [p] == [p] && [p] + [p] == [p, p];
  }

  /** Scanning one more input appends that input's contribution. */
  lemma ScanSnoc(fs: FileSystem, paths: seq<string>, p: string)
    ensures ScanSpec(fs, paths + [p]) == ScanSpec(fs, paths) + Expand(fs, p)
  {
    assert (paths + [p])[..|paths|] == paths;
  }

  /** Scanning the first `i + 1` inputs appends the contribution of input `i`. */
  lemma ScanStep(fs: FileSystem, paths: seq<string>, i: nat)
    requires i < |paths|
    ensures ScanSpec(fs, paths[..i + 1]) == ScanSpec(fs, paths[..i]) + Expand(fs, paths[i])
  {
    assert paths[..i + 1] == paths[..i] + [paths[i]];
    ScanSnoc(fs, paths[..i], paths[i]);
  }

  /** `q` names a regular file at or below `n`. */
  ghost predicate FileBeneath(n: Node, q: string)
    decreases n
  {
    match n
    case File(p) => p == q
    case Dir(_, cs) => exists i | 0 <= i < |cs| :: FileBeneath(cs[i], q)
    case _ => false
  }

  /** A walk yields a successful regular-file entry for `q` exactly when `q`
      names a regular file in the tree. */
  lemma {:induction false} WalkFindsFiles(n: Node, q: string)
    ensures Ok(Entry(q, RegularFile)) in Walk(n) <==> FileBeneath(n, q)
  {
    match n
    case Dir(p, cs) =>
      WalkAllFindsFiles(cs, q);
    case _ =>
  }

  /** The same, for the walks of a list of siblings. */
  lemma {:induction false} WalkAllFindsFiles(cs: seq<Node>, q: string)
    ensures Ok(Entry(q, RegularFile)) in WalkAll(cs) <==>
              exists i | 0 <= i < |cs| :: FileBeneath(cs[i], q)
  {
    if cs != [] {
      var init := cs[..|cs| - 1];
      WalkAllFindsFiles(init, q);
      WalkFindsFiles(cs[|cs| - 1], q);
      if exists i | 0 <= i < |cs| :: FileBeneath(cs[i], q) {
        var i :| 0 <= i < |cs| && FileBeneath(cs[i], q);
        if i < |cs| - 1 { assert init[i] == cs[i]; }
      }
      if exists i | 0 <= i < |init| :: FileBeneath(init[i], q) {
        var i :| 0 <= i < |init| && FileBeneath(init[i], q);
        assert cs[i] == init[i];
      }
    }
  }

  /** A path is kept from a list of walk items exactly when it passes the
      filter and the walk yielded it as a regular file. */
  lemma {:induction false} KeptOksMembers(ws: seq<Result<Entry>>, q: string)
    ensures q in Kept(Oks(ws)) <==> IsSupportedPath(q) && Ok(Entry(q, RegularFile)) in ws
  {
    if ws != [] {
      var init, w := ws[..|ws| - 1], ws[|ws| - 1];
      KeptOksMembers(init, q);
      KeptOksSnoc(init, w);
      assert ws == init + [w];
      assert Ok(Entry(q, RegularFile)) in ws <==>
               Ok(Entry(q, RegularFile)) in init || w == Ok(Entry(q, RegularFile));
    }
  }

  /** The kept paths of the first `j + 1` items of a walk extend those of
      the first `j` by the path of item `j`, when it is kept. */
  lemma KeptOksStep(walk: seq<Result<Entry>>, j: nat)
    requires j < |walk|
    ensures Kept(Oks(walk[..j + 1])) ==
              Kept(Oks(walk[..j])) + (if walk[j].Ok? && Keeps(walk[j].value) then [walk[j].value.path] else [])
  {
    assert walk[..j + 1] == walk[..j] + [walk[j]];
    KeptOksSnoc(walk[..j], walk[j]);
  }

  /** One more walk item adds its path when it is a kept regular file. */
  lemma KeptOksSnoc(ws: seq<Result<Entry>>, w: Result<Entry>)
    ensures Kept(Oks(ws + [w])) ==
              Kept(Oks(ws)) + (if w.Ok? && Keeps(w.value) then [w.value.path] else [])
  {
    assert (ws + [w])[..|ws|] == ws;
    if w.Ok? {
      assert Oks(ws + [w]) == Oks(ws) + [w.value];
      KeptSnoc(Oks(ws), w.value);
    } else {
      assert Oks(ws + [w]) == Oks(ws) + [];
      assert Oks(ws) + [] == Oks(ws);
    }
  }

  /** A directory input contributes exactly the supported regular files
      beneath it: no directory, no special file, nothing outside it. */
  lemma DirectoryExpansion(fs: FileSystem, p: string, q: string)
    requires p in fs && IsDirNode(fs[p])
    ensures q in Expand(fs, p) <==> IsSupportedPath(q) && FileBeneath(fs[p], q)
  {
    KeptOksMembers(Walk(fs[p]), q);
    WalkFindsFiles(fs[p], q);
  }

  /** Walking children one after another concatenates their walks. */
  lemma {:induction false} WalkAllAppend(a: seq<Node>, b: seq<Node>)
    ensures WalkAll(a + b) == WalkAll(a) + WalkAll(b)
    decreases |b|
  {
    if b == [] {
      assert a + b == a;
    } else {
      var b' := b[..|b| - 1];
      assert (a + b)[..|a + b| - 1] == a + b';
      WalkAllAppend(a, b');
    }
  }

  /** Dropping failed items distributes over concatenation. */
  lemma {:induction false} OksAppend(x: seq<Result<Entry>>, y: seq<Result<Entry>>)
    ensures Oks(x + y) == Oks(x) + Oks(y)
    decreases |y|
  {
    if y == [] {
      assert x + y == x;
    } else {
      assert (x + y)[..|x + y| - 1] == x + y[..|y| - 1];
      OksAppend(x, y[..|y| - 1]);
    }
  }

  /** Keeping supported files distributes over concatenation. */
  lemma {:induction false} KeptAppend(a: seq<Entry>, b: seq<Entry>)
    ensures Kept(a + b) == Kept(a) + Kept(b)
    decreases |b|
  {
    if b == [] {
      assert a + b == a;
    } else {
      assert (a + b)[..|a + b| - 1] == a + b[..|b| - 1];
      KeptAppend(a, b[..|b| - 1]);
    }
  }

  /** Filtering and keeping distribute over concatenation. */
  lemma KeptOksAppend(x: seq<Result<Entry>>, y: seq<Result<Entry>>)
    ensures Kept(Oks(x + y)) == Kept(Oks(x)) + Kept(Oks(y))
  {
    OksAppend(x, y);
    KeptAppend(Oks(x), Oks(y));
  }

  /** The walk of a directory whose entries are `a`, then `x`, then `b`. */
  lemma WalkDirSplit(p: string, a: seq<Node>, x: seq<Node>, b: seq<Node>)
    ensures Walk(Dir(p, a + x + b)) == [Ok(Entry(p, Directory))] + (WalkAll(a) + WalkAll(x) + WalkAll(b))
  {
    WalkAllAppend(a + x, b);
    WalkAllAppend(a, x);
  }

  /** Keeping the files of three walks one after another. */
  lemma KeptOksThree(x: seq<Result<Entry>>, y: seq<Result<Entry>>, z: seq<Result<Entry>>)
    ensures Kept(Oks(x + y + z)) == Kept(Oks(x)) + Kept(Oks(y)) + Kept(Oks(z))
  {
    KeptOksAppend(x + y, z);
    KeptOksAppend(x, y);
  }

  /** An entry whose metadata cannot be read, or a subdirectory that cannot
      be listed, is skipped and the scan goes on with its siblings. */
  lemma FailedEntrySkipped(p: string, a: seq<Node>, bad: Node, b: seq<Node>)
    requires bad.Broken? || bad.Unlistable?
    ensures Kept(Oks(Walk(Dir(p, a + [bad] + b)))) == Kept(Oks(Walk(Dir(p, a + b))))
  {
    var head: seq<Result<Entry>> := [Ok(Entry(p, Directory))];
    var wa, wx, wb := WalkAll(a), WalkAll([bad]), WalkAll(b);
    WalkDirSplit(p, a, [bad], b);
    WalkDirSplit(p, a, [], b);
    assert a + [] + b == a + b;
    assert WalkAll([]) == [];
    assert [bad][..0] == [];
    assert wx == Walk(bad);
    NoFilesFromFailure(bad);
    KeptOksAppend(head, wa + wx + wb);
    KeptOksThree(wa, wx, wb);
    KeptOksAppend(head, wa + [] + wb);
    KeptOksThree(wa, [], wb);
    assert Kept(Oks([])) == [];
  }

  /** A failed entry or an unlistable directory contributes no path. */
  lemma NoFilesFromFailure(bad: Node)
    requires bad.Broken? || bad.Unlistable?
    ensures Kept(Oks(Walk(bad))) == []
  {
    var w := Walk(bad);
    if bad.Broken? {
      assert w[..0] == [];
    } else {
      assert w[..1][..0] == [] && w[..1] == [w[0]];
      assert Oks(w) == [Entry(bad.path, Directory)];
      assert Oks(w)[..0] == [];
    }
  }
}
