/** The hash table behind command lookup: chains of entries in 31 buckets, changed in place.
    Each routine is proved to do to the table what `CommandLookup` does to the cache.
 */
module CommandTable {
  import opened Basics
  import opened CommandPath
  import opened CommandLookup

  const CMDTABLESIZE: nat := 31

  datatype TblEntry = TblEntry(name: string, kind: Kind)

  type Chain = seq<TblEntry>

  /** hashname. */
  function HashName(name: string): (h: nat)
    ensures h < CMDTABLESIZE
  {
    StringHash(name, CMDTABLESIZE)
  }

  /** Position of `name` in a chain, or its length. */
  function Position(c: Chain, name: string): (i: nat)
    ensures i <= |c|
    ensures i < |c| ==> c[i].name == name
    ensures forall k :: 0 <= k < i ==> c[k].name != name
  {
    if c == [] || c[0].name == name then 0 else 1 + Position(c[1..], name)
  }

  /** The chain of bucket `b` holds exactly the cached names that hash to `b`, each once. */
  ghost predicate ChainHolds(c: Chain, b: nat, cache: map<string, Kind>) {
    && (forall i, j :: 0 <= i < j < |c| ==> c[i].name != c[j].name)
    && (forall i :: 0 <= i < |c| ==> c[i].name in cache && cache[c[i].name] == c[i].kind && HashName(c[i].name) == b)
    && (forall n :: n in cache && HashName(n) == b ==> Position(c, n) < |c|)
  }

  lemma PositionInAppend(c: Chain, e: TblEntry, n: string)
    ensures Position(c + [e], n) == if Position(c, n) < |c| then Position(c, n) else if e.name == n then |c| else |c| + 1
  {
    var p := Position(c + [e], n);
    assert forall k :: 0 <= k < |c| ==> (c + [e])[k] == c[k];
    assert (c + [e])[|c|] == e;
    var q := Position(c, n);
    assert q < |c| ==> (c + [e])[q].name == n;
  }

  /** A new entry at the end of its chain. */
  lemma ChainAppend(c: Chain, b: nat, cache: map<string, Kind>, e: TblEntry)
    requires ChainHolds(c, b, cache) && e.name !in cache && HashName(e.name) == b
    ensures ChainHolds(c + [e], b, cache[e.name := e.kind])
  {
    var c' := c + [e];
    forall n | n in cache[e.name := e.kind] && HashName(n) == b
      ensures Position(c', n) < |c'|
    {
      PositionInAppend(c, e, n);
    }
  }

  lemma ChainElsewhere(c: Chain, b: nat, cache: map<string, Kind>, name: string, kind: Kind)
    requires ChainHolds(c, b, cache) && HashName(name) != b
    ensures ChainHolds(c, b, cache[name := kind])
    ensures ChainHolds(c, b, cache - {name})
  {
  }

  lemma PositionInUpdate(c: Chain, i: nat, kind: Kind, n: string)
    requires i < |c|
    ensures Position(c[i := c[i].(kind := kind)], n) == Position(c, n)
  {
    var c' := c[i := c[i].(kind := kind)];
    assert forall k :: 0 <= k < |c| ==> c'[k].name == c[k].name;
    var p, q := Position(c, n), Position(c', n);
    assert p < |c| ==> c'[p].name == n;
    assert q < |c| ==> c[q].name == n;
  }

  /** An entry given a new kind. */
  lemma ChainUpdate(c: Chain, b: nat, cache: map<string, Kind>, i: nat, kind: Kind)
    requires ChainHolds(c, b, cache) && i < |c|
    ensures ChainHolds(c[i := c[i].(kind := kind)], b, cache[c[i].name := kind])
  {
    var c' := c[i := c[i].(kind := kind)];
    forall n | n in cache[c[i].name := kind] && HashName(n) == b
      ensures Position(c', n) < |c'|
    {
      PositionInUpdate(c, i, kind, n);
    }
  }

  function Without(c: Chain, i: nat): Chain
    requires i < |c|
  {
    c[..i] + c[i + 1..]
  }

  /** An entry unlinked. */
  lemma ChainRemove(c: Chain, b: nat, cache: map<string, Kind>, i: nat)
    requires ChainHolds(c, b, cache) && i < |c|
    ensures ChainHolds(Without(c, i), b, cache - {c[i].name})
  {
    hide Position, HashName;
    var c' := Without(c, i);
    assert forall k :: 0 <= k < |c'| ==> c'[k] == c[if k < i then k else k + 1];
    forall n | n in cache - {c[i].name} && HashName(n) == b
      ensures Position(c', n) < |c'|
    {
      var p := Position(c, n);
      var q := if p < i then p else p - 1;
      assert p != i;
      assert c'[q].name == n;
    }
  }

  class Table {
    const buckets: array<Chain>
    var cmdtableCd: bool
    ghost var cache: map<string, Kind>
    var lastBucket: nat
    var lastIndex: nat

    ghost predicate Valid()
      reads this, buckets
    {
      buckets.Length == CMDTABLESIZE && forall b :: 0 <= b < CMDTABLESIZE ==> ChainHolds(buckets[b], b, cache)
    }

    constructor ()
      ensures Valid() && cache == map[] && !cmdtableCd && fresh(buckets)
    {
      buckets := new Chain[CMDTABLESIZE](_ => []);
      cmdtableCd, cache, lastBucket, lastIndex := false, map[], 0, 0;
    }

    /** The entry that the last lookup found. */
    ghost predicate AtLast(name: string)
      requires Valid()
      reads this, buckets
    {
      lastBucket == HashName(name) && lastIndex < |buckets[lastBucket]| && buckets[lastBucket][lastIndex].name == name
    }

    /** cmdlookup without adding. */
    method CmdLookup(name: string) returns (found: bool, kind: Kind)
      requires Valid()
      modifies this`lastBucket, this`lastIndex
      ensures Valid()
      ensures found <==> name in cache
      ensures found ==> kind == cache[name] && AtLast(name)
    {
      var b := HashName(name);
      var chain := buckets[b];
      var i := 0;
      while i < |chain| && chain[i].name != name
        invariant 0 <= i <= |chain|
        invariant forall k :: 0 <= k < i ==> chain[k].name != name
      {
        i := i + 1;
      }
      lastBucket, lastIndex := b, i;
      assert ChainHolds(chain, b, cache);
      found := i < |chain|;
      assert found ==> chain[i].name in cache;
      assert name in cache ==> Position(chain, name) < |chain|;
      kind := if found then chain[i].kind else Unknown;
    }

    /** The entry of `name`, added at the end of its chain when there is none, given `kind`:
        cmdlookup with adding, and the assignment that follows it in every caller. */
    method Enter(name: string, kind: Kind)
      requires Valid()
      modifies this`lastBucket, this`lastIndex, this`cache, buckets
      ensures Valid() && cache == old(cache)[name := kind]
    {
      var found, was := CmdLookup(name);
      var b := HashName(name);
      ghost var before := cache;
      if found {
        ChainUpdate(buckets[b], b, cache, lastIndex, kind);
        buckets[b] := buckets[b][lastIndex := buckets[b][lastIndex].(kind := kind)];
      } else {
        ChainAppend(buckets[b], b, cache, TblEntry(name, kind));
        lastBucket, lastIndex := b, |buckets[b]|;
        buckets[b] := buckets[b] + [TblEntry(name, kind)];
      }
      cache := cache[name := kind];
      forall k | 0 <= k < CMDTABLESIZE && k != b
        ensures ChainHolds(buckets[k], k, cache)
      {
        ChainElsewhere(buckets[k], k, before, name, kind);
      }
    }

    /** delete_cmd_entry: unlink the entry of the last lookup. */
    method DeleteCmdEntry(ghost name: string)
      requires Valid() && AtLast(name)
      modifies this`cache, buckets
      ensures Valid() && cache == old(cache) - {name}
    {
      var b := lastBucket;
      ghost var before := cache;
      ChainRemove(buckets[b], b, cache, lastIndex);
      buckets[b] := Without(buckets[b], lastIndex);
      cache := cache - {name};
      forall k | 0 <= k < CMDTABLESIZE && k != b
        ensures ChainHolds(buckets[k], k, cache)
      {
        ChainElsewhere(buckets[k], k, before, name, Unknown);
      }
    }

    /** clearcmdentry: walk every chain and unlink the utility locations. */
    method ClearCmdEntry()
      requires Valid()
      modifies this`cmdtableCd, this`cache, buckets
      ensures Valid() && !cmdtableCd
      ensures cache == map n | n in old(cache) && !old(cache)[n].Normal? :: old(cache)[n]
    {
      hide ChainHolds, Kept, HashName;
      ghost var kept := map n | n in cache && !cache[n].Normal? :: cache[n];
      for t := 0 to CMDTABLESIZE
        modifies buckets
        invariant forall b :: 0 <= b < t ==> ChainHolds(buckets[b], b, kept)
        invariant forall b :: t <= b < CMDTABLESIZE ==> ChainHolds(buckets[b], b, cache)
      {
        var chain := PruneChain(buckets[t]);
        KeptChainHolds(buckets[t], t, cache, kept);
        buckets[t] := chain;
      }
      cache := kept;
      cmdtableCd := false;
    }

    ghost function Abs(path: string, cwd: string): State
      reads this
    {
      State(cache, cmdtableCd, path, cwd)
    }

    /** find_command. */
    method FindCommand(env: Env, name: string, nofunc: bool, path: string, cwd: string) returns (kind: Kind)
      requires Valid()
      modifies this`lastBucket, this`lastIndex, this`cache, this`cmdtableCd, buckets
      ensures Valid() && (kind, Abs(path, cwd)) == Find(env, old(Abs(path, cwd)), name, nofunc)
    {
      hide ChainHolds, Entries, Search, FullName;
      if '/' in name {
        return Normal(0);
      }
      var found, was := CmdLookup(name);
      if found && !(was.Function? && nofunc) {
        return was;
      }
      if env.builtin(name).Some? {
        kind := Builtin(env.builtin(name).value);
        if !found {
          Enter(name, kind);
        }
        return;
      }
      var hit, cd, func, full := SearchPath(env.fs, cwd, path, name);
      if hit.NoMatch? {
        return Unknown;
      }
      if func {
        kind := Function(env.funcIn(full));
        Enter(name, kind);
      } else {
        kind := Normal(hit.index);
        if !found {
          Enter(name, kind);
        }
      }
      if cd {
        cmdtableCd := true;
      }
    }

    /** hashcd, and the change of directory it follows. */
    method HashCd()
      requires Valid()
      modifies this`cache, this`cmdtableCd, buckets
      ensures Valid()
      ensures forall path, cwd :: Abs(path, cwd) == if old(cmdtableCd) then Clear(old(Abs(path, cwd))) else old(Abs(path, cwd))
    {
      if cmdtableCd {
        ClearCmdEntry();
      }
    }

    /** unsetfunc. */
    method UnsetFunc(name: string)
      requires Valid()
      modifies this`lastBucket, this`lastIndex, this`cache, buckets
      ensures Valid() && cache == if name in old(cache) && old(cache)[name].Function? then old(cache) - {name} else old(cache)
    {
      var found, kind := CmdLookup(name);
      if found && kind.Function? {
        DeleteCmdEntry(name);
      }
    }

    /** The operations of a run, one after another: the table, the flag, the path and the
        directory stay those of the value-level run, so every lookup answers as a fresh
        search would. */
    method RunOps(env: Env, ops: seq<Op>, path0: string, cwd0: string) returns (path: string, cwd: string)
      requires Valid() && Coherent(env, Abs(path0, cwd0))
      modifies this, buckets
      ensures Valid() && Abs(path, cwd) == Run(env, old(Abs(path0, cwd0)), ops) && Coherent(env, Abs(path, cwd))
    {
      hide ChainHolds, Coherent, Find;
      path, cwd := path0, cwd0;
      for i := 0 to |ops|
        invariant Valid() && Coherent(env, Abs(path, cwd))
        invariant Abs(path, cwd) == Run(env, old(Abs(path0, cwd0)), ops[..i])
      {
        ApplyCoherent(env, Abs(path, cwd), ops[i]);
        assert ops[..i + 1][..i] == ops[..i];
        path, cwd := RunOp(env, ops[i], path, cwd);
      }
      assert ops[..|ops|] == ops;
    }

    method RunOp(env: Env, op: Op, path0: string, cwd0: string) returns (path: string, cwd: string)
      requires Valid()
      modifies this, buckets
      ensures Valid() && Abs(path, cwd) == Apply(env, old(Abs(path0, cwd0)), op)
    {
      hide ChainHolds, Find;
      path, cwd := path0, cwd0;
      match op
      case Lookup(name, nofunc) =>
        var kind := FindCommand(env, name, nofunc, path, cwd);
      case ChangeDir(dir) =>
        HashCd();
        cwd := dir;
      case SetPath(newPath) =>
        ClearCmdEntry();
        path := newPath;
      case HashR =>
        ClearCmdEntry();
      case Rehash(name) =>
        var found, was := CmdLookup(name);
        if found && was.Normal? {
          DeleteCmdEntry(name);
        }
        var kind := FindCommand(env, name, false, path, cwd);
      case Define(name, body) =>
        Enter(name, Function(body));
      case Unset(name) =>
        UnsetFunc(name);
      case WithPath(temp, name, nofunc) =>
        ClearCmdEntry();
        var kind := FindCommand(env, name, nofunc, temp, cwd);
        ClearCmdEntry();
    }
  }

  /** The path walk of find_command: the first match, whether a relative name was looked at
      on the way, and whether the match is under a %func entry. */
  method SearchPath(fs: Files, cwd: string, path: string, name: string)
    returns (hit: Match, cd: bool, func: bool, full: string)
    ensures var es := Entries(path);
            && hit == Search(fs, cwd, es, name, 0)
            && (hit.Match? ==> cd == !AbsoluteUpTo(es, name, hit.index)
                               && func == IsFunc(es[hit.index]) && full == FullName(es[hit.index], name))
  {
    hide Entries, FullName;
    ghost var es := Entries(path);
    var rest := Some(path);
    var idx := 0;
    cd, full := false, "";
    while rest.Some?
      invariant 0 <= idx <= |es| && es[idx..] == Remaining(rest)
      invariant Search(fs, cwd, es, name, 0) == Search(fs, cwd, es, name, idx)
      invariant cd == !(forall k :: 0 <= k < idx && Usable(es[k]) ==> IsAbsolute(FullName(es[k], name)))
      decreases |es| - idx
    {
      assert es[idx..][0] == es[idx] && es[idx..][1..] == es[idx + 1..];
      var next, opt, rest' := Padvance(rest.value, name, true);
      rest := rest';
      if opt.None? || "func" <= opt.value {
        if !IsAbsolute(next) {
          cd := true;
        }
        if StatAt(fs, cwd, next) == Regular {
          return Match(idx), cd, opt.Some?, next;
        }
      }
      idx := idx + 1;
    }
    hit, func := NoMatch, false;
  }

  // ---------------------------------------------------------------------------
  // Pruning a chain.

  function Kept(c: Chain): Chain {
    if c == [] then [] else (if c[0].kind.Normal? then [] else [c[0]]) + Kept(c[1..])
  }

  /** The inner loop of clearcmdentry: one chain without its utility locations. */
  method PruneChain(full: Chain) returns (chain: Chain)
    ensures chain == Kept(full)
  {
    chain := full;
    var i := 0;
    while i < |chain|
      invariant 0 <= i <= |chain|
      invariant chain[..i] + Kept(chain[i..]) == Kept(full)
      decreases |chain| - i
    {
      if chain[i].kind.Normal? {
        var next := Without(chain, i);
        assert next[..i] == chain[..i] && next[i..] == chain[i..][1..];
        chain := next;
      } else {
        assert chain[i..][1..] == chain[i + 1..] && chain[..i + 1] == chain[..i] + [chain[i]];
        i := i + 1;
      }
    }
    assert chain[..i] == chain;
  }

  lemma {:induction false} KeptEntries(c: Chain)
    requires forall i, j :: 0 <= i < j < |c| ==> c[i].name != c[j].name
    ensures forall i :: 0 <= i < |Kept(c)| ==> Kept(c)[i] in c && !Kept(c)[i].kind.Normal?
    ensures forall i, j :: 0 <= i < j < |Kept(c)| ==> Kept(c)[i].name != Kept(c)[j].name
    ensures forall i :: 0 <= i < |c| && !c[i].kind.Normal? ==> c[i] in Kept(c)
  {
    if c != [] {
      KeptEntries(c[1..]);
      assert forall e :: e in c[1..] ==> e in c && e.name != c[0].name;
      assert Kept(c) == (if c[0].kind.Normal? then [] else [c[0]]) + Kept(c[1..]);
    }
  }

  lemma KeptChainHolds(full: Chain, b: nat, cache: map<string, Kind>, kept: map<string, Kind>)
    requires ChainHolds(full, b, cache)
    requires kept == map n | n in cache && !cache[n].Normal? :: cache[n]
    ensures ChainHolds(Kept(full), b, kept)
  {
    KeptEntries(full);
    forall n | n in kept && HashName(n) == b
      ensures Position(Kept(full), n) < |Kept(full)|
    {
      assert full[Position(full, n)] in Kept(full);
    }
  }
}
