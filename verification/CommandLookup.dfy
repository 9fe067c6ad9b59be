/** Resolving command names through the cache of utility locations, on values: what each
    operation of the shell does to the cache, and that the cache always agrees with the path
    search it replaces.  The file system does not change during a run.
 */
module CommandLookup {
  import opened Basics
  import opened CommandPath

  /** What a command name stands for. A cached utility is remembered by the index of its
      search path entry. */
  datatype Kind = Unknown | Normal(index: nat) | Builtin(id: int) | Function(body: string)

  /** The fixed surroundings: files, builtins, and the function that a file under a %func
      entry defines. */
  datatype Env = Env(fs: Files, builtin: string -> Option<int>, funcIn: string -> string)

  /** `cd` records that some cached location depends on the current directory. */
  datatype State = State(cache: map<string, Kind>, cd: bool, path: string, cwd: string)

  /** The answer without any cached location: functions first unless excluded, then builtins,
      then the first match on the path. */
  function Resolve(env: Env, st: State, name: string, nofunc: bool): Kind {
    if '/' in name then Normal(0)
    else if name in st.cache && st.cache[name].Function? && !nofunc then st.cache[name]
    else if env.builtin(name).Some? then Builtin(env.builtin(name).value)
    else
      var es := Entries(st.path);
      var m := Search(env.fs, st.cwd, es, name, 0);
      if m.NoMatch? then Unknown
      else if IsFunc(es[m.index]) then Function(env.funcIn(FullName(es[m.index], name)))
      else Normal(m.index)
  }

  /** find_command: the answer and the cache it leaves. */
  function Find(env: Env, st: State, name: string, nofunc: bool): (Kind, State) {
    if '/' in name then (Normal(0), st)
    else if name in st.cache && !(st.cache[name].Function? && nofunc) then (st.cache[name], st)
    else
      var keep := name in st.cache;
      if env.builtin(name).Some? then
        var k := Builtin(env.builtin(name).value);
        (k, if keep then st else st.(cache := st.cache[name := k]))
      else
        var es := Entries(st.path);
        var m := Search(env.fs, st.cwd, es, name, 0);
        if m.NoMatch? then (Unknown, st) else
        var st' := st.(cd := st.cd || !AbsoluteUpTo(es, name, m.index));
        if IsFunc(es[m.index]) then
          var k := Function(env.funcIn(FullName(es[m.index], name)));
          (k, st'.(cache := st.cache[name := k]))
        else
          (Normal(m.index), if keep then st' else st'.(cache := st.cache[name := Normal(m.index)]))
  }

  /** clearcmdentry: forget the locations, keep functions and builtins. */
  function Clear(st: State): State {
    st.(cache := map n | n in st.cache && !st.cache[n].Normal? :: st.cache[n], cd := false)
  }

  /** What happens between commands. */
  datatype Op =
    | Lookup(name: string, nofunc: bool)
    | ChangeDir(dir: string)
    | SetPath(path: string)
    | HashR
    | Rehash(name: string)
    | Define(name: string, body: string)
    | Unset(name: string)
    | WithPath(path: string, name: string, nofunc: bool)

  function Forget(st: State, name: string): State {
    st.(cache := st.cache - {name})
  }

  function Apply(env: Env, st: State, op: Op): State {
    match op
    case Lookup(name, nofunc) => Find(env, st, name, nofunc).1
    case ChangeDir(dir) => (if st.cd then Clear(st) else st).(cwd := dir)
    case SetPath(path) => Clear(st).(path := path)
    case HashR => Clear(st)
    case Rehash(name) =>
      var st' := if name in st.cache && st.cache[name].Normal? then Forget(st, name) else st;
      Find(env, st', name, false).1
    case Define(name, body) => st.(cache := st.cache[name := Function(body)])
    case Unset(name) => if name in st.cache && st.cache[name].Function? then Forget(st, name) else st
    case WithPath(path, name, nofunc) =>
      Clear(Find(env, Clear(st).(path := path), name, nofunc).1).(path := st.path)
  }

  // ---------------------------------------------------------------------------

  /** A cached location is what a fresh search finds now, it is not a function file, and
      unless `cd` says otherwise it does not depend on the current directory. */
  ghost predicate Located(env: Env, st: State, name: string, i: nat) {
    var es := Entries(st.path);
    && env.builtin(name).None?
    && Search(env.fs, st.cwd, es, name, 0) == Match(i)
    && !IsFunc(es[i])
    && (!st.cd ==> AbsoluteUpTo(es, name, i))
  }

  ghost predicate Coherent(env: Env, st: State) {
    forall n :: n in st.cache ==>
      && (st.cache[n].Normal? ==> Located(env, st, n, st.cache[n].index))
      && (st.cache[n].Builtin? ==> env.builtin(n) == Some(st.cache[n].id))
      && !st.cache[n].Unknown?
  }

  lemma ClearCoherent(env: Env, st: State, path: string, dir: string)
    requires Coherent(env, st)
    ensures Coherent(env, Clear(st).(path := path, cwd := dir))
  {
  }

  /** The name is found under a %func entry, whose file defines it. */
  predicate LoadsFunction(env: Env, st: State, name: string) {
    var es := Entries(st.path);
    var m := Search(env.fs, st.cwd, es, name, 0);
    '/' !in name && env.builtin(name).None? && m.Match? && IsFunc(es[m.index])
  }

  /** The cache never changes the answer: a lookup through a coherent cache gives what the
      search without it gives and keeps the cache coherent.  A function is never dropped or
      replaced by a builtin or a location; only a lookup that ignores functions and loads the
      name from a %func file replaces it, by the function loaded. */
  lemma FindAgrees(env: Env, st: State, name: string, nofunc: bool)
    requires Coherent(env, st)
    ensures Find(env, st, name, nofunc).0 == Resolve(env, st, name, nofunc)
    ensures Coherent(env, Find(env, st, name, nofunc).1)
    ensures var st' := Find(env, st, name, nofunc).1;
            st'.path == st.path && st'.cwd == st.cwd &&
            forall n :: n in st.cache && st.cache[n].Function? ==>
              && n in st'.cache && st'.cache[n].Function?
              && (st'.cache[n] == st.cache[n] ||
                  (n == name && nofunc && LoadsFunction(env, st, name) && st'.cache[n] == Resolve(env, st, name, true)))
  {
    hide Entries, FullName;
    var st' := Find(env, st, name, nofunc).1;
    forall n | n in st'.cache
      ensures st'.cache[n].Normal? ==> Located(env, st', n, st'.cache[n].index)
    {
      if n in st.cache && st'.cache[n] == st.cache[n] && st.cache[n].Normal? {
        assert Located(env, st, n, st.cache[n].index);
      }
    }
  }

  lemma MovedCoherent(env: Env, st: State, dir: string)
    requires Coherent(env, st) && !st.cd
    ensures Coherent(env, st.(cwd := dir))
  {
    hide Entries, Search;
    var st' := st.(cwd := dir);
    forall n | n in st'.cache && st'.cache[n].Normal?
      ensures Located(env, st', n, st'.cache[n].index)
    {
      assert Located(env, st, n, st.cache[n].index);
      SearchMoves(env.fs, st.cwd, dir, Entries(st.path), n, st.cache[n].index);
    }
  }

  lemma ForgetCoherent(env: Env, st: State, name: string)
    requires Coherent(env, st)
    ensures Coherent(env, Forget(st, name))
  {
    hide Entries, Search;
    var st' := Forget(st, name);
    forall n | n in st'.cache && st'.cache[n].Normal?
      ensures Located(env, st', n, st'.cache[n].index)
    {
      assert Located(env, st, n, st.cache[n].index);
    }
  }

  lemma DefineCoherent(env: Env, st: State, name: string, body: string)
    requires Coherent(env, st)
    ensures Coherent(env, st.(cache := st.cache[name := Function(body)]))
  {
    hide Entries, Search;
    var st' := st.(cache := st.cache[name := Function(body)]);
    forall n | n in st'.cache && st'.cache[n].Normal?
      ensures Located(env, st', n, st'.cache[n].index)
    {
      assert Located(env, st, n, st.cache[n].index);
    }
  }

  /** Every operation keeps the cache coherent. */
  lemma ApplyCoherent(env: Env, st: State, op: Op)
    requires Coherent(env, st)
    ensures Coherent(env, Apply(env, st, op))
  {
    hide Find, Clear, Coherent, Forget;
    match op
    case Lookup(name, nofunc) => FindAgrees(env, st, name, nofunc);
    case ChangeDir(dir) =>
      if st.cd {
        ClearCoherent(env, st, st.path, dir);
        ClearKeepsPath(st);
      } else {
        MovedCoherent(env, st, dir);
      }
    case SetPath(path) => ClearCoherent(env, st, path, st.cwd); ClearKeepsPath(st);
    case HashR => ClearCoherent(env, st, st.path, st.cwd); ClearKeepsPath(st);
    case Rehash(name) =>
      ForgetCoherent(env, st, name);
      FindAgrees(env, st, name, false);
      FindAgrees(env, Forget(st, name), name, false);
    case Define(name, body) => DefineCoherent(env, st, name, body);
    case Unset(name) => ForgetCoherent(env, st, name);
    case WithPath(path, name, nofunc) =>
      var there := Clear(st).(path := path);
      ClearKeepsPath(st);
      ClearCoherent(env, st, path, st.cwd);
      FindAgrees(env, there, name, nofunc);
      ClearCoherent(env, Find(env, there, name, nofunc).1, st.path, st.cwd);
      ClearKeepsPath(Find(env, there, name, nofunc).1);
  }

  lemma ClearKeepsPath(st: State)
    ensures Clear(st) == Clear(st).(path := st.path, cwd := st.cwd)
  {
  }

  function Run(env: Env, st: State, ops: seq<Op>): State {
    if ops == [] then st else Apply(env, Run(env, st, ops[..|ops| - 1]), ops[|ops| - 1])
  }

  /** Cache coherence over every run: whatever was looked up, defined, removed or changed
      before, the next lookup gives the answer of a fresh search under the current path and
      directory. */
  lemma {:induction false} RunAgrees(env: Env, st: State, ops: seq<Op>, name: string, nofunc: bool)
    requires Coherent(env, st)
    ensures var now := Run(env, st, ops);
            Coherent(env, now) && Find(env, now, name, nofunc).0 == Resolve(env, now, name, nofunc)
    decreases |ops|
  {
    hide Find, Resolve, Coherent, Apply;
    if ops != [] {
      var n := |ops| - 1;
      RunAgrees(env, st, ops[..n], name, nofunc);
      ApplyCoherent(env, Run(env, st, ops[..n]), ops[n]);
    }
    FindAgrees(env, Run(env, st, ops), name, nofunc);
  }

  /** The operation may change what the function `name` is. */
  predicate Redefines(env: Env, st: State, op: Op, name: string) {
    match op
    case Define(n, _) => n == name
    case Unset(n) => n == name
    case Lookup(n, nofunc) => n == name && nofunc && LoadsFunction(env, st, name)
    case WithPath(path, n, nofunc) => n == name && nofunc && LoadsFunction(env, st.(path := path), name)
    case _ => false
  }

  lemma ApplyKeepsFunction(env: Env, st: State, op: Op, name: string)
    requires Coherent(env, st) && name in st.cache && st.cache[name].Function? && !Redefines(env, st, op, name)
    ensures var st' := Apply(env, st, op); name in st'.cache && st'.cache[name] == st.cache[name]
  {
    hide Find, Coherent, LoadsFunction, Resolve, Entries, Search;
    match op
    case Lookup(n, nofunc) => FindAgrees(env, st, n, nofunc);
    case Rehash(n) =>
      ForgetCoherent(env, st, n);
      FindAgrees(env, st, n, false);
      FindAgrees(env, Forget(st, n), n, false);
    case WithPath(path, n, nofunc) =>
      var there := Clear(st).(path := path);
      ClearCoherent(env, st, path, st.cwd);
      assert Clear(st).(path := path) == Clear(st).(path := path, cwd := st.cwd);
      FindAgrees(env, there, n, nofunc);
      LoadsAlike(env, st.(path := path), there, name);
    case _ =>
  }

  lemma LoadsAlike(env: Env, st: State, st': State, name: string)
    requires st.path == st'.path && st.cwd == st'.cwd
    ensures LoadsFunction(env, st, name) == LoadsFunction(env, st', name)
  {
  }

  /** Over every run a function stays what it is until it is defined again, removed, or loaded
      from a %func file by a lookup that ignores functions. */
  lemma {:induction false} FunctionStays(env: Env, st: State, ops: seq<Op>, name: string)
    requires Coherent(env, st) && name in st.cache && st.cache[name].Function?
    requires forall k :: 0 <= k < |ops| ==> !Redefines(env, Run(env, st, ops[..k]), ops[k], name)
    ensures var now := Run(env, st, ops);
            name in now.cache && now.cache[name] == st.cache[name] && Resolve(env, now, name, false) ==
              if '/' in name then Normal(0) else st.cache[name]
    decreases |ops|
  {
    hide Find, Coherent, Redefines, Apply;
    if ops != [] {
      var n := |ops| - 1;
      assert forall k :: 0 <= k < n ==> ops[..n][..k] == ops[..k];
      FunctionStays(env, st, ops[..n], name);
      RunAgrees(env, st, ops[..n], name, false);
      ApplyKeepsFunction(env, Run(env, st, ops[..n]), ops[n], name);
    }
  }

  // ---------------------------------------------------------------------------
  // Executing from a cached index.

  /** The first entry from `idx` on that shellexec tries: entries with an option are passed
      over. */
  function FirstTried(es: seq<Entry>, idx: nat): (k: nat)
    requires idx <= |es|
    ensures idx <= k <= |es| && (k < |es| ==> es[k].opt.None?)
    ensures forall i :: idx <= i < k ==> es[i].opt.Some?
    decreases |es| - idx
  {
    if idx == |es| || es[idx].opt.None? then idx else FirstTried(es, idx + 1)
  }

  /** shellexec's walk with a starting index, up to the first name it tries. */
  method FirstName(path: string, idx: nat, name: string) returns (full: Option<string>)
    ensures var es := Entries(path);
            full == if idx > |es| || FirstTried(es, idx) == |es| then None
                    else Some(FullName(es[FirstTried(es, idx)], name))
  {
    hide Entries, FullName;
    ghost var es := Entries(path);
    var rest := Some(path);
    var left: int := idx;
    ghost var i := 0;
    while rest.Some?
      invariant 0 <= i <= |es| && es[i..] == Remaining(rest)
      invariant left == idx - i
      invariant idx <= i ==> FirstTried(es, idx) == FirstTried(es, i)
      decreases |es| - i
    {
      assert es[i..][0] == es[i] && es[i..][1..] == es[i + 1..];
      var next, opt, rest' := Padvance(rest.value, name, true);
      left := left - 1;
      rest := rest';
      if left < 0 && opt.None? {
        return Some(next);
      }
      i := i + 1;
    }
    full := None;
  }

  /** A utility run from its cached index is first tried under exactly the name the search
      found, and that name is a regular file. */
  lemma CachedIndexRunsTheMatch(env: Env, st: State, name: string)
    requires Coherent(env, st) && name in st.cache && st.cache[name].Normal?
    ensures var es := Entries(st.path);
            var i := st.cache[name].index;
            i < |es| && FirstTried(es, i) == i && StatAt(env.fs, st.cwd, FullName(es[i], name)) == Regular
  {
    hide Entries;
    assert Located(env, st, name, st.cache[name].index);
  }
}
