/** What loading an API description visits and collects, for any finite import graph, cycles included. */
module ImportClosure {
  import opened Options
  import opened Imports

  ghost predicate Edge(g: Files, a: File, b: File) {
    a in g && Some(b) in g[a].Imports()
  }

  /** A chain of imports from `a` to `b` through no file of `around`. */
  ghost predicate IsPath(g: Files, around: seq<File>, a: File, b: File, p: seq<File>) {
    && p != [] && p[0] == a && p[|p| - 1] == b
    && (forall k :: 0 <= k < |p| ==> p[k] !in around)
    && forall k :: 0 <= k < |p| - 1 ==> Edge(g, p[k], p[k + 1])
  }

  ghost predicate ReachableAround(g: Files, around: seq<File>, a: File, b: File) {
    exists p :: IsPath(g, around, a, b, p)
  }

  ghost predicate Reachable(g: Files, a: File, b: File) {
    ReachableAround(g, [], a, b)
  }

  lemma ReachableSelf(g: Files, around: seq<File>, a: File)
    requires a !in around
    ensures ReachableAround(g, around, a, a)
  {
    assert IsPath(g, around, a, a, [a]);
  }

  lemma ReachableStep(g: Files, around: seq<File>, a: File, b: File, c: File)
    requires a !in around && Edge(g, a, b) && ReachableAround(g, around, b, c)
    ensures ReachableAround(g, around, a, c)
  {
    var p :| IsPath(g, around, b, c, p);
    var q := [a] + p;
    forall k | 0 <= k < |q| - 1
      ensures Edge(g, q[k], q[k + 1])
    {
      if k > 0 { assert Edge(g, p[k - 1], p[k]); }
    }
    assert IsPath(g, around, a, c, q);
  }

  /** Reachable through one of the import entries. */
  ghost predicate Imported(g: Files, around: seq<File>, imports: seq<Option<File>>, f: File) {
    exists i :: 0 <= i < |imports| && imports[i].Some? && ReachableAround(g, around, imports[i].value, f)
  }

  lemma ImportedFirst(g: Files, around: seq<File>, imports: seq<Option<File>>, f: File)
    requires imports != [] && imports[0].Some? && ReachableAround(g, around, imports[0].value, f)
    ensures Imported(g, around, imports, f)
  {
  }

  /** What is reachable around more files is reachable around fewer. */
  lemma ImportedWider(g: Files, around: seq<File>, wider: seq<File>, imports: seq<Option<File>>, f: File)
    requires around <= wider && Imported(g, wider, imports, f)
    ensures Imported(g, around, imports, f)
  {
    var i :| 0 <= i < |imports| && imports[i].Some? && ReachableAround(g, wider, imports[i].value, f);
    var p :| IsPath(g, wider, imports[i].value, f, p);
    assert forall x <- around :: x in wider;
    assert IsPath(g, around, imports[i].value, f, p);
  }

  lemma ImportedLater(g: Files, around: seq<File>, wider: seq<File>, imports: seq<Option<File>>, f: File)
    requires imports != [] && around <= wider && Imported(g, wider, imports[1..], f)
    ensures Imported(g, around, imports, f)
  {
    ImportedWider(g, around, wider, imports[1..], f);
  }

  lemma ImportedBelow(g: Files, around: seq<File>, imports: seq<Option<File>>, f: File)
    requires imports != [] && imports[0].Some? && imports[0].value in g && imports[0].value !in around
    requires Imported(g, around + [imports[0].value], g[imports[0].value].Imports(), f)
    ensures Imported(g, around, imports, f)
  {
    var h := imports[0].value;
    ImportedWider(g, around, around + [h], g[h].Imports(), f);
    var i :| 0 <= i < |g[h].Imports()| && g[h].Imports()[i].Some? && ReachableAround(g, around, g[h].Imports()[i].value, f);
    assert g[h].Imports()[i] in g[h].Imports() && g[h].Imports()[i] == Some(g[h].Imports()[i].value);
    ReachableStep(g, around, h, g[h].Imports()[i].value, f);
  }

  // ----- soundness: only reachable files, each once

  /** What a load added is reachable from its import entries, around the files visited before, and exists. */
  lemma {:induction false} VisitsReachable(g: Files, visited: seq<File>, imports: seq<Option<File>>, f: File)
    requires var r := Load(g, visited, imports); r.Loaded? && f in r.visited[|visited|..]
    ensures Imported(g, visited, imports, f) && f in g
    decreases Unvisited(g, visited), |imports|
  {
    if imports[0].None? || imports[0].value in visited {
      VisitsReachable(g, visited, imports[1..], f);
      ImportedLater(g, visited, visited, imports, f);
    } else {
      var h := imports[0].value;
      var child := Load(g, visited + [h], g[h].Imports());
      var rest := Load(g, child.visited, imports[1..]);
      FewerUnvisited(g, visited, h, visited + [h]);
      FewerUnvisited(g, visited, h, child.visited);
      NewParts(visited, h, child.visited, rest.visited);
      if f == h {
        ReachableSelf(g, visited, h);
        ImportedFirst(g, visited, imports, f);
      } else if f in child.visited[|visited| + 1..] {
        VisitsReachable(g, visited + [h], g[h].Imports(), f);
        ImportedBelow(g, visited, imports, f);
      } else {
        VisitsReachable(g, child.visited, imports[1..], f);
        ImportedLater(g, visited, child.visited, imports, f);
      }
    }
  }

  /** The new files of a load: the first import, what it added, and what the rest added. */
  lemma NewParts(visited: seq<File>, h: File, mid: seq<File>, end: seq<File>)
    requires visited + [h] <= mid <= end
    ensures end[|visited|..] == [h] + mid[|visited| + 1..] + end[|mid|..]
  {
  }

  /** No file is visited twice. */
  lemma {:induction false} VisitsOnce(g: Files, visited: seq<File>, imports: seq<Option<File>>)
    requires Distinct(visited)
    ensures Load(g, visited, imports).Loaded? ==> Distinct(Load(g, visited, imports).visited)
    decreases Unvisited(g, visited), |imports|
  {
    if imports == [] {
    } else if imports[0].None? || imports[0].value !in g || imports[0].value in visited {
      if imports[0].None? || imports[0].value in visited { VisitsOnce(g, visited, imports[1..]); }
    } else {
      var h := imports[0].value;
      var child := Load(g, visited + [h], g[h].Imports());
      FewerUnvisited(g, visited, h, visited + [h]);
      VisitsOnce(g, visited + [h], g[h].Imports());
      if child.Loaded? {
        FewerUnvisited(g, visited, h, child.visited);
        VisitsOnce(g, child.visited, imports[1..]);
      }
    }
  }

  // ----- completeness: everything reachable

  ghost predicate ImportsIn(imports: seq<Option<File>>, s: seq<File>) {
    forall e <- imports :: e.Some? ==> e.value in s
  }

  /** Everything imported by the files from place `n` on is in the list. */
  ghost predicate ClosedFrom(g: Files, s: seq<File>, n: nat) {
    forall k :: n <= k < |s| ==> s[k] in g && ImportsIn(g[s[k]].Imports(), s)
  }

  lemma ImportsInLonger(imports: seq<Option<File>>, s: seq<File>, s': seq<File>)
    requires ImportsIn(imports, s) && s <= s'
    ensures ImportsIn(imports, s')
  {
  }

  lemma ClosedJoin(g: Files, s: seq<File>, s': seq<File>, n: nat)
    requires s <= s' && n <= |s| && ClosedFrom(g, s, n) && ClosedFrom(g, s', |s|)
    ensures ClosedFrom(g, s', n)
  {
  }

  /** After a load the list holds its imports, and all imports of the files it added. */
  lemma {:induction false} LoadCloses(g: Files, visited: seq<File>, imports: seq<Option<File>>)
    requires Load(g, visited, imports).Loaded?
    ensures ImportsIn(imports, Load(g, visited, imports).visited)
    ensures ClosedFrom(g, Load(g, visited, imports).visited, |visited|)
    decreases Unvisited(g, visited), |imports|
  {
    var end := Load(g, visited, imports).visited;
    if imports == [] {
    } else if imports[0].None? || imports[0].value in visited {
      LoadCloses(g, visited, imports[1..]);
      ImportsInLonger([imports[0]], visited, end);
      assert imports == [imports[0]] + imports[1..];
    } else {
      var h := imports[0].value;
      var mid := Load(g, visited + [h], g[h].Imports()).visited;
      FewerUnvisited(g, visited, h, visited + [h]);
      FewerUnvisited(g, visited, h, mid);
      LoadCloses(g, visited + [h], g[h].Imports());
      LoadCloses(g, mid, imports[1..]);
      FirstIsClosed(g, visited, h, mid);
      ClosedJoin(g, mid, end, |visited|);
      ImportsInLonger([imports[0]], mid, end);
      assert imports == [imports[0]] + imports[1..];
    }
  }

  lemma FirstIsClosed(g: Files, visited: seq<File>, h: File, mid: seq<File>)
    requires visited + [h] <= mid && h in g && ImportsIn(g[h].Imports(), mid) && ClosedFrom(g, mid, |visited| + 1)
    ensures ClosedFrom(g, mid, |visited|) && ImportsIn([Some(h)], mid)
  {
    assert mid[|visited|] == (visited + [h])[|visited|];
  }

  /** From a file of the list a path around its first `n` leads to files of the list after these. */
  lemma {:induction false} ClosedHoldsPath(g: Files, s: seq<File>, n: nat, a: File, b: File, p: seq<File>)
    requires n <= |s| && ClosedFrom(g, s, n) && a in s && IsPath(g, s[..n], a, b, p)
    ensures b in s[n..] && b in g
    decreases |p|
  {
    assert p[0] !in s[..n] && s == s[..n] + s[n..];
    var k :| 0 <= k < |s[n..]| && s[n..][k] == a;
    assert s[n + k] == a;
    if |p| > 1 {
      assert Edge(g, p[0], p[1]);
      var q := p[1..];
      forall j | 0 <= j < |q| - 1
        ensures Edge(g, q[j], q[j + 1])
      {
        assert Edge(g, p[j + 1], p[j + 2]);
      }
      assert forall j :: 0 <= j < |q| ==> q[j] == p[j + 1];
      ClosedHoldsPath(g, s, n, p[1], b, q);
    }
  }

  /** What is reachable around the visited files has been added. */
  lemma VisitsAll(g: Files, visited: seq<File>, imports: seq<Option<File>>, f: File)
    requires Load(g, visited, imports).Loaded? && Imported(g, visited, imports, f)
    ensures f in Load(g, visited, imports).visited[|visited|..] && f in g
  {
    var s := Load(g, visited, imports).visited;
    LoadCloses(g, visited, imports);
    var i :| 0 <= i < |imports| && imports[i].Some? && ReachableAround(g, visited, imports[i].value, f);
    var p :| IsPath(g, visited, imports[i].value, f, p);
    assert imports[i] in imports && s[..|visited|] == visited;
    ClosedHoldsPath(g, s, |visited|, imports[i].value, f, p);
  }

  // ----- the collected objects

  ghost predicate DefinedBy(g: Files, files: seq<File>, name: string) {
    exists k :: 0 <= k < |files| && files[k] in g && name in g[files[k]].objects
  }

  lemma DefinedByJoin(g: Files, xs: seq<File>, ys: seq<File>, name: string)
    ensures DefinedBy(g, xs + ys, name) <==> DefinedBy(g, xs, name) || DefinedBy(g, ys, name)
  {
    if DefinedBy(g, xs, name) {
      var k :| 0 <= k < |xs| && xs[k] in g && name in g[xs[k]].objects;
      assert (xs + ys)[k] == xs[k];
    }
    if DefinedBy(g, ys, name) {
      var k :| 0 <= k < |ys| && ys[k] in g && name in g[ys[k]].objects;
      assert (xs + ys)[|xs| + k] == ys[k];
    }
  }

  /** The collected names are exactly those defined by the files a load added. */
  lemma {:induction false} CollectsNewNames(g: Files, visited: seq<File>, imports: seq<Option<File>>, name: string)
    requires Load(g, visited, imports).Loaded?
    ensures var r := Load(g, visited, imports);
            name in r.objects <==> DefinedBy(g, r.visited[|visited|..], name)
    decreases Unvisited(g, visited), |imports|
  {
    if imports == [] {
    } else if imports[0].None? || imports[0].value in visited {
      CollectsNewNames(g, visited, imports[1..], name);
    } else {
      var h := imports[0].value;
      var child := Load(g, visited + [h], g[h].Imports());
      var rest := Load(g, child.visited, imports[1..]);
      FewerUnvisited(g, visited, h, visited + [h]);
      FewerUnvisited(g, visited, h, child.visited);
      CollectsNewNames(g, visited + [h], g[h].Imports(), name);
      CollectsNewNames(g, child.visited, imports[1..], name);
      NewParts(visited, h, child.visited, rest.visited);
      DefinedByJoin(g, [h] + child.visited[|visited| + 1..], rest.visited[|child.visited|..], name);
      DefinedByJoin(g, [h], child.visited[|visited| + 1..], name);
      DefinedByOne(g, h, name);
    }
  }

  /** The last of the files, in order, that defines the name. */
  ghost predicate LastDefines(g: Files, files: seq<File>, name: string, k: nat) {
    && k < |files| && files[k] in g && name in g[files[k]].objects
    && forall j :: k < j < |files| ==> !(files[j] in g && name in g[files[j]].objects)
  }

  lemma LastOfJoin(g: Files, xs: seq<File>, ys: seq<File>, name: string, k: nat)
    requires LastDefines(g, xs + ys, name, k)
    ensures if k < |xs| then LastDefines(g, xs, name, k) && !DefinedBy(g, ys, name) else LastDefines(g, ys, name, k - |xs|)
  {
    assert forall j :: 0 <= j < |ys| ==> (xs + ys)[|xs| + j] == ys[j];
    assert forall j :: 0 <= j < |xs| ==> (xs + ys)[j] == xs[j];
  }

  /** A name that several files define has the fields of the last one, in the order in which the files were visited. */
  lemma {:induction false} LastDefinitionWins(g: Files, visited: seq<File>, imports: seq<Option<File>>, name: string, k: nat)
    requires var r := Load(g, visited, imports); r.Loaded? && LastDefines(g, r.visited[|visited|..], name, k)
    ensures var r := Load(g, visited, imports);
            name in r.objects && r.objects[name] == g[r.visited[|visited|..][k]].objects[name]
    decreases Unvisited(g, visited), |imports|
  {
    hide DefinedBy;
    var r := Load(g, visited, imports);
    if imports[0].None? || imports[0].value in visited {
      LastDefinitionWins(g, visited, imports[1..], name, k);
    } else {
      var h := imports[0].value;
      var child := Load(g, visited + [h], g[h].Imports());
      var rest := Load(g, child.visited, imports[1..]);
      FewerUnvisited(g, visited, h, visited + [h]);
      FewerUnvisited(g, visited, h, child.visited);
      NewParts(visited, h, child.visited, rest.visited);
      var mine, below, after := [h], child.visited[|visited| + 1..], rest.visited[|child.visited|..];
      LastOfJoin(g, mine + below, after, name, k);
      CollectsNewNames(g, child.visited, imports[1..], name);
      CollectsNewNames(g, visited + [h], g[h].Imports(), name);
      if k >= |mine + below| {
        LastDefinitionWins(g, child.visited, imports[1..], name, k - |mine + below|);
      } else {
        LastOfJoin(g, mine, below, name, k);
        if k >= 1 { LastDefinitionWins(g, visited + [h], g[h].Imports(), name, k - 1); }
      }
    }
  }

  lemma DefinedByOne(g: Files, h: File, name: string)
    requires h in g
    ensures DefinedBy(g, [h], name) <==> name in g[h].objects
  {
    if name in g[h].objects { assert [h][0] in g; }
  }

  // ----- any module

  /** Loading fails only over a file that does not exist and is reachable around the visited files. */
  lemma {:induction false} MissingIsReachable(g: Files, visited: seq<File>, imports: seq<Option<File>>) returns (f: File)
    requires Load(g, visited, imports).Missing? && forall v <- visited :: v in g
    ensures f !in g && Imported(g, visited, imports, f)
    decreases Unvisited(g, visited), |imports|
  {
    if imports[0].Some? && imports[0].value !in g {
      f := imports[0].value;
      ReachableSelf(g, visited, f);
      ImportedFirst(g, visited, imports, f);
    } else if imports[0].None? || imports[0].value in visited {
      f := MissingIsReachable(g, visited, imports[1..]);
      ImportedLater(g, visited, visited, imports, f);
    } else {
      var h := imports[0].value;
      var child := Load(g, visited + [h], g[h].Imports());
      FewerUnvisited(g, visited, h, visited + [h]);
      if child.Missing? {
        f := MissingIsReachable(g, visited + [h], g[h].Imports());
        ImportedBelow(g, visited, imports, f);
      } else {
        FewerUnvisited(g, visited, h, child.visited);
        VisitedExist(g, visited + [h], g[h].Imports());
        f := MissingIsReachable(g, child.visited, imports[1..]);
        ImportedLater(g, visited, child.visited, imports, f);
      }
    }
  }

  lemma VisitedExist(g: Files, visited: seq<File>, imports: seq<Option<File>>)
    requires Load(g, visited, imports).Loaded? && forall v <- visited :: v in g
    ensures forall v <- Load(g, visited, imports).visited :: v in g
  {
    var s := Load(g, visited, imports).visited;
    LoadCloses(g, visited, imports);
    forall v <- s
      ensures v in g
    {
      var k :| 0 <= k < |s| && s[k] == v;
      if k < |visited| { assert s[..|visited|][k] == visited[k]; }
    }
  }

  /** What any load does, whatever was visited before: it fails exactly when a file that does not exist is reachable
      from the import entries around the visited files, and otherwise adds the files so reachable and no others. */
  lemma LoadAddsReachable(g: Files, visited: seq<File>, imports: seq<Option<File>>)
    requires forall v <- visited :: v in g
    ensures var r := Load(g, visited, imports);
            && (r.Missing? <==> exists f :: Imported(g, visited, imports, f) && f !in g)
            && (r.Loaded? ==> forall f :: f in r.visited[|visited|..] <==> Imported(g, visited, imports, f))
  {
    hide Load, Imported;
    var r := Load(g, visited, imports);
    if r.Missing? {
      var f := MissingIsReachable(g, visited, imports);
    } else {
      forall f
        ensures f in r.visited[|visited|..] <==> Imported(g, visited, imports, f)
        ensures Imported(g, visited, imports, f) ==> f in g
      {
        if Imported(g, visited, imports, f) { VisitsAll(g, visited, imports, f); }
        if f in r.visited[|visited|..] { VisitsReachable(g, visited, imports, f); }
      }
    }
  }

  /** `name` is defined by a file that `m` reaches, other than `m`. */
  ghost predicate Offered(g: Files, m: File, name: string) {
    exists f :: Reachable(g, m, f) && f != m && f in g && name in g[f].objects
  }

  /** `name` is defined by a file reachable from the imports of `m` around the visited files. */
  ghost predicate OfferedAround(g: Files, visited: seq<File>, m: File, name: string)
    requires m in g
  {
    exists f :: Imported(g, visited, g[m].Imports(), f) && f in g && name in g[f].objects
  }

  /** What an imported module collects, and when that is all: it collects the names of the files reachable around the
      visited ones, so all names it reaches if and only if each of them is defined by such a file too. */
  lemma ModuleCollectsIff(g: Files, visited: seq<File>, m: File)
    requires m in g && m in visited && Load(g, visited, g[m].Imports()).Loaded?
    ensures var objects := Load(g, visited, g[m].Imports()).objects;
            && (forall name :: name in objects <==> OfferedAround(g, visited, m, name))
            && (forall name :: name in objects ==> Offered(g, m, name))
            && ((forall name :: name in objects <==> Offered(g, m, name))
                <==> forall name :: Offered(g, m, name) ==> OfferedAround(g, visited, m, name))
  {
    hide Load, Offered, OfferedAround;
    forall name
      ensures name in Load(g, visited, g[m].Imports()).objects <==> OfferedAround(g, visited, m, name)
      ensures OfferedAround(g, visited, m, name) ==> Offered(g, m, name)
    {
      ModuleCollects(g, visited, m, name);
      if OfferedAround(g, visited, m, name) { AroundIsOffered(g, visited, m, name); }
    }
  }

  lemma ModuleCollects(g: Files, visited: seq<File>, m: File, name: string)
    requires m in g && Load(g, visited, g[m].Imports()).Loaded?
    ensures name in Load(g, visited, g[m].Imports()).objects <==> OfferedAround(g, visited, m, name)
  {
    hide Load, Imported;
    var added := Load(g, visited, g[m].Imports()).visited[|visited|..];
    CollectsNewNames(g, visited, g[m].Imports(), name);
    if DefinedBy(g, added, name) {
      var k :| 0 <= k < |added| && added[k] in g && name in g[added[k]].objects;
      VisitsReachable(g, visited, g[m].Imports(), added[k]);
    }
    if OfferedAround(g, visited, m, name) {
      var f :| Imported(g, visited, g[m].Imports(), f) && f in g && name in g[f].objects;
      VisitsAll(g, visited, g[m].Imports(), f);
      var k :| 0 <= k < |added| && added[k] == f;
    }
  }

  lemma AroundIsOffered(g: Files, visited: seq<File>, m: File, name: string)
    requires m in g && m in visited && OfferedAround(g, visited, m, name)
    ensures Offered(g, m, name)
  {
    var f :| Imported(g, visited, g[m].Imports(), f) && f in g && name in g[f].objects;
    AroundNotVisited(g, visited, g[m].Imports(), f);
    ImportedWider(g, [], visited, g[m].Imports(), f);
    ImportedIsReachable(g, m, f);
  }

  lemma AroundNotVisited(g: Files, around: seq<File>, imports: seq<Option<File>>, f: File)
    requires Imported(g, around, imports, f)
    ensures f !in around
  {
    var i :| 0 <= i < |imports| && imports[i].Some? && ReachableAround(g, around, imports[i].value, f);
    var p :| IsPath(g, around, imports[i].value, f, p);
    assert p[|p| - 1] !in around;
  }

  /** Reachable from a file is the file itself, or what is reachable through its imports. */
  lemma ImportedIsReachable(g: Files, m: File, f: File)
    requires m in g && Imported(g, [], g[m].Imports(), f)
    ensures Reachable(g, m, f)
  {
    var i :| 0 <= i < |g[m].Imports()| && g[m].Imports()[i].Some? && ReachableAround(g, [], g[m].Imports()[i].value, f);
    assert g[m].Imports()[i] in g[m].Imports() && g[m].Imports()[i] == Some(g[m].Imports()[i].value);
    ReachableStep(g, [], m, g[m].Imports()[i].value, f);
  }

  // ----- the root

  /** Import closure: loading a root fails exactly when a reachable file does not exist; otherwise it visits the
      files reachable from the root, all of them, each once. */
  lemma RootVisitsReachable(g: Files, root: File)
    requires root in g
    ensures var r := Load(g, [root], g[root].Imports());
            && (r.Missing? <==> exists f :: Reachable(g, root, f) && f !in g)
            && (r.Loaded? ==> Distinct(r.visited) && r.visited[0] == root
                              && forall f :: f in r.visited <==> Reachable(g, root, f))
  {
    var r := Load(g, [root], g[root].Imports());
    if r.Missing? {
      var f := MissingIsReachable(g, [root], g[root].Imports());
      ImportedWider(g, [], [root], g[root].Imports(), f);
      ImportedIsReachable(g, root, f);
    } else {
      VisitsOnce(g, [root], g[root].Imports());
      RootClosed(g, root);
      forall f
        ensures f in r.visited <==> Reachable(g, root, f)
        ensures Reachable(g, root, f) ==> f in g
      {
        if Reachable(g, root, f) {
          var p :| IsPath(g, [], root, f, p);
          assert r.visited[..0] == [] && r.visited[0..] == r.visited;
          ClosedHoldsPath(g, r.visited, 0, root, f, p);
        }
        if f in r.visited { VisitedIsReachable(g, root, f); }
      }
    }
  }

  lemma RootClosed(g: Files, root: File)
    requires root in g && Load(g, [root], g[root].Imports()).Loaded?
    ensures ClosedFrom(g, Load(g, [root], g[root].Imports()).visited, 0)
    ensures Load(g, [root], g[root].Imports()).visited[0] == root
  {
    LoadCloses(g, [root], g[root].Imports());
    assert [] + [root] == [root];
    FirstIsClosed(g, [], root, Load(g, [root], g[root].Imports()).visited);
  }

  lemma VisitedIsReachable(g: Files, root: File, f: File)
    requires root in g && Load(g, [root], g[root].Imports()).Loaded? && f in Load(g, [root], g[root].Imports()).visited
    ensures Reachable(g, root, f)
  {
    var v := Load(g, [root], g[root].Imports()).visited;
    assert v == [root] + v[1..] by { assert v[..1] == [root]; }
    if f == root {
      ReachableSelf(g, [], root);
    } else {
      VisitsReachable(g, [root], g[root].Imports(), f);
      ImportedWider(g, [], [root], g[root].Imports(), f);
      ImportedIsReachable(g, root, f);
    }
  }

  /** The imported names of the root are the names defined by the reachable files other than the root. */
  lemma RootCollectsNames(g: Files, root: File, name: string)
    requires root in g && Load(g, [root], g[root].Imports()).Loaded?
    ensures name in Load(g, [root], g[root].Imports()).objects <==> Offered(g, root, name)
  {
    var r := Load(g, [root], g[root].Imports());
    RootVisitsReachable(g, root);
    CollectsNewNames(g, [root], g[root].Imports(), name);
    if DefinedBy(g, r.visited[1..], name) {
      var k :| 0 <= k < |r.visited[1..]| && r.visited[1..][k] in g && name in g[r.visited[1..][k]].objects;
      assert r.visited[k + 1] == r.visited[1..][k];
      assert r.visited[0] != r.visited[k + 1];
    }
    if f :| Reachable(g, root, f) && f != root && f in g && name in g[f].objects {
      var k :| 0 <= k < |r.visited| && r.visited[k] == f;
      assert r.visited[1..][k - 1] == f;
    }
  }

  /** An imported module does not get that for itself: a file its sibling has loaded before is skipped. Here the
      root imports 1 and 2, which both import 3; module 2 ends up without the names of 3. */
  lemma SiblingIsSkipped()
    ensures var g: Files := map[0 := Module(Some([Some(1), Some(2)]), map[]), 1 := Module(Some([Some(3)]), map[]),
                                2 := Module(Some([Some(3)]), map[]), 3 := Module(None, map["T" := []])];
            && Load(g, [0, 1], g[1].Imports()).Loaded?
            && "T" in Load(g, [0, 1], g[1].Imports()).objects
            && Load(g, [0, 1, 3, 2], g[2].Imports()) == Loaded([0, 1, 3, 2], map[])
            && Reachable(g, 2, 3)
  {
    var g: Files := map[0 := Module(Some([Some(1), Some(2)]), map[]), 1 := Module(Some([Some(3)]), map[]),
                        2 := Module(Some([Some(3)]), map[]), 3 := Module(None, map["T" := []])];
    assert g[1].Imports()[1..] == [] && g[2].Imports()[1..] == [];
    assert Load(g, [0, 1, 3], []) == Loaded([0, 1, 3], map[]);
    assert IsPath(g, [], 2, 3, [2, 3]);
  }
}
