/** Loading the imports of an API description: CppBase.__loadImportedDomainObjects
    (src/lib/osApplication/script/cppbase.py:259-291).

    File names are canonical: the name in an import entry is the name of the file it resolves to. A file may have
    import entries, some of which may lack the name tag, and the domain objects it defines. */
module Imports {
  import opened Options

  type File = nat
  type Fields = seq<string>

  /** `listed` is None for a description without the imports tag. */
  datatype Module = Module(listed: Option<seq<Option<File>>>, objects: map<string, Fields>) {
    function Imports(): seq<Option<File>> {
      if listed.None? then [] else listed.value
    }
  }

  /** The files that exist. */
  type Files = map<File, Module>

  /** The visited list and the collected objects, or the exception for a file that does not exist. */
  datatype Loaded = Missing | Loaded(visited: seq<File>, objects: map<string, Fields>)

  ghost predicate Distinct(s: seq<File>) {
    forall i, j :: 0 <= i < j < |s| ==> s[i] != s[j]
  }

  ghost function Unvisited(g: Files, visited: seq<File>): set<File> {
    set f | f in g && f !in visited
  }

  lemma FewerUnvisited(g: Files, visited: seq<File>, f: File, later: seq<File>)
    requires f in g && f !in visited && visited + [f] <= later
    ensures Unvisited(g, later) < Unvisited(g, visited)
  {
    assert later[|visited|] == (visited + [f])[|visited|];
    forall x <- visited
      ensures x in later
    {
      var i :| 0 <= i < |visited| && visited[i] == x;
      assert later[i] == (visited + [f])[i];
    }
    assert f in Unvisited(g, visited) && f !in Unvisited(g, later);
  }

  lemma StillFewer(g: Files, saved: seq<File>, visited: seq<File>, f: File)
    requires f in g && f !in visited && saved <= visited
    ensures Unvisited(g, visited + [f]) < Unvisited(g, saved)
  {
    FewerUnvisited(g, visited, f, visited + [f]);
    assert forall x <- saved :: x in visited;
  }

  /** The loop over the import entries, against the visited list it shares with the modules it loads. */
  ghost function Load(g: Files, visited: seq<File>, imports: seq<Option<File>>): (r: Loaded)
    ensures r.Loaded? ==> visited <= r.visited
    decreases Unvisited(g, visited), |imports|
  {
    if imports == [] then Loaded(visited, map[])
    else if imports[0].None? then Load(g, visited, imports[1..])
    else
      var f := imports[0].value;
      if f !in g then Missing
      else if f in visited then Load(g, visited, imports[1..])
      else
        assert f in Unvisited(g, visited) && f !in Unvisited(g, visited + [f]);
        var child := Load(g, visited + [f], g[f].Imports());
        if child.Missing? then Missing
        else
          FewerUnvisited(g, visited, f, child.visited);
          var rest := Load(g, child.visited, imports[1..]);
          if rest.Missing? then Missing
          else Loaded(rest.visited, g[f].objects + child.objects + rest.objects)
  }

  /** The loop step by step: an entry that is skipped, one that is missing, and one that is loaded. */
  lemma LoadSkips(g: Files, visited: seq<File>, imports: seq<Option<File>>)
    requires imports != [] && (imports[0].None? || (imports[0].value in g && imports[0].value in visited))
    ensures Load(g, visited, imports) == Load(g, visited, imports[1..])
  {
  }

  lemma LoadMisses(g: Files, visited: seq<File>, imports: seq<Option<File>>)
    requires imports != [] && imports[0].Some? && imports[0].value !in g
    ensures Load(g, visited, imports).Missing?
  {
  }

  lemma LoadEnters(g: Files, visited: seq<File>, imports: seq<Option<File>>)
    requires imports != [] && imports[0].Some? && imports[0].value in g && imports[0].value !in visited
    ensures var f := imports[0].value;
            var child := Load(g, visited + [f], g[f].Imports());
            Load(g, visited, imports) ==
              if child.Missing? then Missing
              else
                var rest := Load(g, child.visited, imports[1..]);
                if rest.Missing? then Missing else Loaded(rest.visited, g[f].objects + child.objects + rest.objects)
  {
  }

  lemma LoadEnds(g: Files, visited: seq<File>)
    ensures Load(g, visited, []) == Loaded(visited, map[])
  {
  }

  // ----- the objects of the program

  /** The Python list that a module and the modules it loads refer to. */
  class FileList {
    var files: seq<File>

    constructor (files: seq<File>)
      ensures this.files == files
    {
      this.files := files;
    }
  }

  class CppBase {
    const description: Module
    var apiFile: FileList
    var importedDomainObjects: map<string, Fields>

    constructor (description: Module, apiFile: FileList)
      ensures this.description == description && this.apiFile == apiFile && importedDomainObjects == map[]
    {
      this.description, this.apiFile, importedDomainObjects := description, apiFile, map[];
    }

    /** The shared list ends up with every file visited below this module; a module with import entries gets back a
        copy of the list as it was, one without the tag keeps the shared list. False stands for the exception. */
    method LoadImportedDomainObjects(g: Files) returns (ok: bool)
      modifies this, apiFile
      ensures var r := Load(g, old(apiFile.files), description.Imports());
              && ok == r.Loaded?
              && (ok ==> old(apiFile).files == r.visited && importedDomainObjects == r.objects)
      ensures ok && description.listed.Some? ==> fresh(apiFile) && apiFile.files == old(apiFile.files)
      ensures description.listed.None? ==> ok && apiFile == old(apiFile) && apiFile.files == old(apiFile.files)
      decreases Unvisited(g, apiFile.files)
    {
      hide Unvisited, Load;
      if description.listed.None? {
        LoadEnds(g, apiFile.files);
        importedDomainObjects := map[];
        return true;
      }
      var imports := description.listed.value;
      var shared := apiFile;
      var saved := shared.files;
      var objects: map<string, Fields> := map[];
      var i := 0;
      while i < |imports|
        invariant i <= |imports| && apiFile == shared && saved <= shared.files
        invariant var rest := Load(g, shared.files, imports[i..]);
                  Load(g, saved, imports) ==
                    if rest.Missing? then Missing else Loaded(rest.visited, objects + rest.objects)
      {
        var entry := imports[i];
        assert imports[i..][0] == entry && imports[i..][1..] == imports[i + 1..];
        i := i + 1;
        if entry.None? {
          LoadSkips(g, shared.files, imports[i - 1..]);
          continue;
        }
        var file := entry.value;
        if file !in g {
          LoadMisses(g, shared.files, imports[i - 1..]);
          return false;
        }
        if file in shared.files {
          LoadSkips(g, shared.files, imports[i - 1..]);
          continue;
        }
        LoadEnters(g, shared.files, imports[i - 1..]);
        StillFewer(g, saved, shared.files, file);
        shared.files := shared.files + [file];
        var child := new CppBase(g[file], shared);
        var loaded := child.LoadImportedDomainObjects(g);
        if !loaded {
          return false;
        }
        objects := objects + g[file].objects + child.importedDomainObjects;
      }
      LoadEnds(g, shared.files);
      assert imports[i..] == [] && objects + map[] == objects;
      apiFile := new FileList(saved);
      importedDomainObjects := objects;
      ok := true;
    }
  }
}
