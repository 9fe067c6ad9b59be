/** Finding a command in a tree of directories: the search path as the user writes it, and file
    names as the components that the file system sees, with no text in between.
 */
module CommandFiles {
  import opened Basics
  import opened WorkingDirectory
  import opened CommandPath
  import opened CommandLookup

  // ---------------------------------------------------------------------------
  // Names.

  /** The components that are there: a doubled slash makes none. */
  function Solid(cs: seq<string>): seq<string> {
    if cs == [] then [] else (if cs[0] == "" then [] else [cs[0]]) + Solid(cs[1..])
  }

  /** The components of a file name. */
  function Parts(p: string): seq<string> {
    Solid(Split(p))
  }

  lemma {:induction false} SolidStep(cs: seq<string>)
    requires cs != []
    ensures Solid(cs) == if cs[0] == "" then Solid(cs[1..]) else [cs[0]] + Solid(cs[1..])
  {
  }

  lemma {:induction false} SolidAppend(a: seq<string>, b: seq<string>)
    ensures Solid(a + b) == Solid(a) + Solid(b)
  {
    hide Solid;
    NoneSolid();
    if a == [] {
      assert a + b == b;
    } else {
      SolidAppend(a[1..], b);
      SolidStep(a);
      SolidStep(a + b);
      assert (a + b)[0] == a[0] && (a + b)[1..] == a[1..] + b;
    }
  }

  lemma NoneSolid()
    ensures Solid([]) == []
  {
  }

  lemma PartsJoin(q: string, p: string)
    ensures Parts(q + "/" + p) == Parts(q) + Parts(p)
  {
    hide Split, Solid;
    SplitAppend(q, p);
    SolidAppend(Split(q), Split(p));
  }

  lemma PartsOfName(name: string)
    requires '/' !in name
    ensures Parts(name) == if name == "" then [] else [name]
  {
    hide Split;
    SplitOne(name);
    assert [name][1..] == [] && Solid([]) == [];
  }

  /** A directory and a name without slashes are joined to one name below it; with no directory
      the name stands alone. */
  lemma JoinedComponents(e: Entry, name: string)
    requires '/' !in name
    ensures Split(FullName(e, name)) == if e.dir == "" then [name] else Split(e.dir) + [name]
  {
    hide Split;
    SplitOne(name);
    SplitAppend(e.dir, name);
  }

  // ---------------------------------------------------------------------------
  // Search paths as text.

  /** An entry that can be written down. */
  predicate Plain(e: Entry) {
    ':' !in e.dir && '%' !in e.dir && (e.opt.Some? ==> ':' !in e.opt.value)
  }

  function EntryText(e: Entry): string {
    e.dir + if e.opt.Some? then "%" + e.opt.value else ""
  }

  function PathText(es: seq<Entry>): string
    requires es != []
  {
    EntryText(es[0]) + if |es| == 1 then "" else ":" + PathText(es[1..])
  }

  /** A search path reads back as the entries it was written from. */
  lemma {:induction false} EntriesReadBack(es: seq<Entry>)
    requires es != [] && forall i :: 0 <= i < |es| ==> Plain(es[i])
    ensures Entries(PathText(es)) == es
    decreases |es|
  {
    hide Entries, Span, FullName;
    var e, path := es[0], PathText(es);
    var a, p := |e.dir|, |EntryText(e)|;
    assert Plain(e);
    assert EntryText(e) == path[..p];
    assert e.dir == path[..a];
    assert forall i :: 0 <= i < p ==> path[i] == EntryText(e)[i];
    FirstEntry(path, a, p, true);
    assert e.opt.Some? ==> path[a + 1..p] == e.opt.value;
    if |es| > 1 {
      assert path[p + 1..] == PathText(es[1..]);
      EntriesReadBack(es[1..]);
    }
    assert Entries(path) == [Entries(path)[0]] + Entries(path)[1..];
    assert es == [es[0]] + es[1..];
  }

  // ---------------------------------------------------------------------------
  // Searching the tree.

  /** The file system, by components. */
  type Tree = seq<string> -> Stat

  /** What stat says depends on the components of an absolute name. */
  ghost predicate Backed(fs: Files, tree: Tree) {
    forall p :: fs(p) == tree(Parts(p))
  }

  /** Where an entry of the search path looks for a name. */
  function Where(cwd: string, dir: string, name: string): seq<string> {
    (if IsAbsolute(dir) then [] else Parts(cwd)) + Parts(dir) + Parts(name)
  }

  /** The entry is for programs, or for functions; any other option puts it aside. */
  predicate Searched(e: Entry) {
    e.opt.None? || (|e.opt.value| >= 4 && e.opt.value[..4] == "func")
  }

  lemma LooksAt(fs: Files, tree: Tree, cwd: string, e: Entry, name: string)
    requires Backed(fs, tree) && '/' !in name
    ensures Hit(fs, cwd, e, name) <==> Searched(e) && tree(Where(cwd, e.dir, name)) == Regular
  {
    hide Split, Solid, Parts;
    var full := FullName(e, name);
    NoParts();
    if e.dir != [] {
      PartsJoin(e.dir, name);
      assert full[0] == e.dir[0];
    }
    PartsJoin(cwd, full);
    assert Where(cwd, e.dir, name) == if IsAbsolute(full) then Parts(full) else Parts(cwd) + Parts(full);
  }

  lemma NoParts()
    ensures Parts("") == []
  {
    PartsOfName("");
  }

  /** Entry `i` is the first one under whose directory the tree has the name as a regular
      file. */
  ghost predicate FirstAt(tree: Tree, cwd: string, es: seq<Entry>, name: string, i: nat) {
    && i < |es| && Searched(es[i]) && tree(Where(cwd, es[i].dir, name)) == Regular
    && forall k :: 0 <= k < i && Searched(es[k]) ==> tree(Where(cwd, es[k].dir, name)) != Regular
  }

  lemma FirstSearched(tree: Tree, cwd: string, es: seq<Entry>, name: string, i: nat)
    ensures FirstAt(tree, cwd, es, name, i) ==> i < |es| && Searched(es[i])
  {
  }

  /** The path search finds exactly the first directory that has the command. */
  lemma FoundFirst(fs: Files, tree: Tree, cwd: string, es: seq<Entry>, name: string, i: nat)
    requires Backed(fs, tree) && '/' !in name
    ensures Search(fs, cwd, es, name, 0) == Match(i) <==> FirstAt(tree, cwd, es, name, i)
  {
    hide Hit, Where, Searched, Backed;
    forall k | 0 <= k < |es|
      ensures Hit(fs, cwd, es[k], name) <==> Searched(es[k]) && tree(Where(cwd, es[k].dir, name)) == Regular
    {
      LooksAt(fs, tree, cwd, es[k], name);
    }
  }

  /** What a name stands for, on a search path given by its entries over a tree: a builtin if
      there is one, else the utility or the function in the first directory that has it, else
      nothing.  A function already defined comes before all unless functions are ignored. */
  lemma CommandFound(env: Env, tree: Tree, st: State, es: seq<Entry>, name: string, nofunc: bool, i: nat)
    requires es != [] && forall k :: 0 <= k < |es| ==> Plain(es[k])
    requires Backed(env.fs, tree) && '/' !in name && st.path == PathText(es)
    ensures var fn := name in st.cache && st.cache[name].Function? && !nofunc;
            var k := Resolve(env, st, name, nofunc);
            if fn then k == st.cache[name]
            else if env.builtin(name).Some? then k == Builtin(env.builtin(name).value)
            else
              && (k == Normal(i) <==> FirstAt(tree, st.cwd, es, name, i) && es[i].opt.None?)
              && (FirstAt(tree, st.cwd, es, name, i) && es[i].opt.Some? ==> k == Function(env.funcIn(FullName(es[i], name))))
              && (k.Unknown? <==> forall j :: !FirstAt(tree, st.cwd, es, name, j))
  {
    hide Entries, PathText, Search, FirstAt, Backed, FullName;
    EntriesReadBack(es);
    forall j: nat
      ensures Search(env.fs, st.cwd, es, name, 0) == Match(j) <==> FirstAt(tree, st.cwd, es, name, j)
    {
      FoundFirst(env.fs, tree, st.cwd, es, name, j);
    }
    assert FirstAt(tree, st.cwd, es, name, i) ==> Searched(es[i]) by { FirstSearched(tree, st.cwd, es, name, i); }
  }
}
