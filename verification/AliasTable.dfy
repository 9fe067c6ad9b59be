/** The alias table: chains in 39 buckets, in which an alias removed while its text is being
    read stays linked with its name blanked.
 */
module AliasTable {
  import opened Basics

  const ATABSIZE: nat := 39

  datatype Alias = Alias(name: string, val: string, inUse: bool)

  type Chain = seq<Alias>

  /** hashalias. */
  function HashAlias(name: string): (h: nat)
    ensures h < ATABSIZE
  {
    StringHash(name, ATABSIZE)
  }

  /** The chain of bucket `b` holds exactly the live aliases that hash to `b`, each once, among
      any number of blanked entries. */
  ghost predicate ChainHolds(c: Chain, b: nat, live: map<string, string>) {
    && (forall i, j :: 0 <= i < j < |c| && c[i].name != "" ==> c[i].name != c[j].name)
    && (forall i :: 0 <= i < |c| && c[i].name != "" ==>
          c[i].name in live && live[c[i].name] == c[i].val && HashAlias(c[i].name) == b)
    && (forall n :: n in live && HashAlias(n) == b ==> exists i :: 0 <= i < |c| && c[i].name == n)
  }

  lemma ChainElsewhere(c: Chain, b: nat, live: map<string, string>, name: string, val: string)
    requires ChainHolds(c, b, live) && HashAlias(name) != b
    ensures ChainHolds(c, b, live[name := val])
    ensures ChainHolds(c, b, live - {name})
  {
  }

  /** A new alias in front of its chain. */
  lemma ChainPush(c: Chain, b: nat, live: map<string, string>, a: Alias)
    requires ChainHolds(c, b, live) && a.name !in live && a.name != "" && HashAlias(a.name) == b
    ensures ChainHolds([a] + c, b, live[a.name := a.val])
  {
    var c' := [a] + c;
    forall n | n in live[a.name := a.val] && HashAlias(n) == b
      ensures exists i :: 0 <= i < |c'| && c'[i].name == n
    {
      if n == a.name {
        assert c'[0].name == n;
      } else {
        var i :| 0 <= i < |c| && c[i].name == n;
        assert c'[i + 1].name == n;
      }
    }
  }

  /** An alias blanked in place. */
  lemma ChainBlank(c: Chain, b: nat, live: map<string, string>, i: nat)
    requires ChainHolds(c, b, live) && i < |c| && "" !in live
    ensures ChainHolds(c[i := c[i].(name := "")], b, live - {c[i].name})
  {
    var c' := c[i := c[i].(name := "")];
    forall n | n in live - {c[i].name} && HashAlias(n) == b
      ensures exists k :: 0 <= k < |c'| && c'[k].name == n
    {
      var k :| 0 <= k < |c| && c[k].name == n;
      assert c'[k].name == n;
    }
  }

  /** An alias unlinked. */
  lemma ChainUnlink(c: Chain, b: nat, live: map<string, string>, i: nat)
    requires ChainHolds(c, b, live) && i < |c| && "" !in live
    ensures ChainHolds(c[..i] + c[i + 1..], b, live - {c[i].name})
  {
    var c' := c[..i] + c[i + 1..];
    assert forall k :: 0 <= k < |c'| ==> c'[k] == c[if k < i then k else k + 1];
    forall n | n in live - {c[i].name} && HashAlias(n) == b
      ensures exists k :: 0 <= k < |c'| && c'[k].name == n
    {
      var k :| 0 <= k < |c| && c[k].name == n;
      assert c'[if k < i then k else k - 1].name == n;
    }
  }

  ghost predicate HasBlank(c: Chain) {
    exists i :: 0 <= i < |c| && c[i].name == ""
  }

  /** Blanking entry `i`, or unlinking a proper one, keeps the blanked entries there are. */
  lemma BlanksKept(c: Chain, i: nat)
    requires i < |c|
    ensures HasBlank(c[i := c[i].(name := "")])
    ensures c[i].name != "" && HasBlank(c) ==> HasBlank(c[..i] + c[i + 1..])
  {
    assert c[i := c[i].(name := "")][i].name == "";
    if c[i].name != "" && HasBlank(c) {
      var k :| 0 <= k < |c| && c[k].name == "";
      assert (c[..i] + c[i + 1..])[if k < i then k else k - 1].name == "";
    }
  }

  lemma HasBlankIs(c: Chain)
    ensures HasBlank(c) <==> exists i :: 0 <= i < |c| && c[i].name == ""
  {
  }

  lemma BlanksPushed(c: Chain, a: Alias)
    ensures HasBlank(c) ==> HasBlank([a] + c)
  {
    if HasBlank(c) {
      var k :| 0 <= k < |c| && c[k].name == "";
      assert ([a] + c)[k + 1].name == "";
    }
  }

  lemma NamesHash(c: Chain, b: nat, live: map<string, string>, i: nat)
    requires ChainHolds(c, b, live) && i < |c|
    ensures c[i].name != "" ==> HashAlias(c[i].name) == b
  {
  }

  /** A proper name is linked in its bucket exactly if it is live, and once only. */
  lemma NamesLinked(c: Chain, b: nat, live: map<string, string>, name: string)
    requires ChainHolds(c, b, live) && HashAlias(name) == b
    ensures name in live ==> exists i :: 0 <= i < |c| && c[i].name == name
    ensures forall i :: 0 <= i < |c| && c[i].name == name && name != "" ==> name in live
    ensures forall i, j :: 0 <= i < j < |c| && c[i].name != "" ==> c[i].name != c[j].name
  {
  }

  /** The entry in front is the only one of its name. */
  lemma NewIsIdle(c: Chain, b: nat, live: map<string, string>)
    requires ChainHolds(c, b, live) && c != [] && c[0].name != "" && !c[0].inUse
    ensures forall i :: 0 <= i < |c| && c[i].name == c[0].name ==> !c[i].inUse
  {
  }

  /** Position of the first entry of the name, or the length of the chain. */
  function FirstOf(c: Chain, name: string): (i: nat)
    ensures i <= |c|
    ensures i < |c| ==> c[i].name == name
    ensures forall k :: 0 <= k < i ==> c[k].name != name
  {
    if c == [] || c[0].name == name then 0 else 1 + FirstOf(c[1..], name)
  }

  /** The walk along a chain. */
  method Walk(chain: Chain, name: string) returns (i: nat)
    ensures i == FirstOf(chain, name)
  {
    i := 0;
    while i < |chain|
      invariant 0 <= i <= |chain|
      invariant forall k :: 0 <= k < i ==> chain[k].name != name
    {
      if chain[i].name == name {
        return;
      }
      i := i + 1;
    }
  }

  class Table {
    const atab: array<Chain>
    var aliases: int
    ghost var live: map<string, string>
    /** How often the empty name was removed since all aliases were last removed. */
    ghost var missed: nat

    /** The chains hold exactly the live aliases. */
    ghost predicate Chains()
      reads this`live, atab
    {
      && atab.Length == ATABSIZE
      && (forall b :: 0 <= b < ATABSIZE ==> ChainHolds(atab[b], b, live))
      && "" !in live
    }

    /** And the counter is short of their number by the removals of the empty name. */
    ghost predicate Counted()
      reads this, atab
    {
      Chains() && aliases == |live| - missed
    }

    /** And the counter is their number. */
    ghost predicate Valid()
      reads this, atab
    {
      Counted() && missed == 0
    }

    /** An alias removed while in use is still linked in bucket `b`. */
    ghost predicate Blanked(b: nat)
      requires atab.Length == ATABSIZE && b < ATABSIZE
      reads atab
    {
      HasBlank(atab[b])
    }

    constructor ()
      ensures Valid() && live == map[] && fresh(atab)
    {
      atab := new Chain[ATABSIZE](_ => []);
      aliases, live, missed := 0, map[], 0;
    }

    /** unalias: 0 when an entry of the name was found, 1 when there was none.  For every
        proper name the counter stays as right as it was.  The empty name is not refused, and
        finds a blanked entry: then, and only then, the counter falls behind by one more. */
    method Unalias(name: string) returns (r: int)
      requires Counted()
      modifies this, atab
      ensures Counted() && live == old(live) - {name}
      ensures missed == old(missed) + if name == "" && old(Blanked(HashAlias(""))) then 1 else 0
      ensures r == if name in old(live) || (name == "" && old(Blanked(HashAlias("")))) then 0 else 1
      ensures aliases == old(aliases) + r - 1
      ensures name in old(live) && old(Busy(name)) ==> Blanked(HashAlias(name))
      ensures name != "" ==> forall b :: 0 <= b < ATABSIZE && old(Blanked(b)) ==> Blanked(b)
      ensures forall b :: 0 <= b < ATABSIZE && b != HashAlias(name) ==> atab[b] == old(atab[b])
    {
      hide HashAlias, HasBlank, ChainHolds, FirstOf;
      var b := HashAlias(name);
      HasBlankIs(atab[b]);
      NamesLinked(atab[b], b, live, name);
      RemovedSize(live, name);
      var i := Walk(atab[b], name);
      if i == |atab[b]| {
        return 1;
      }
      RemoveEntry(b, i);
      aliases := aliases - 1;
      if name == "" {
        missed := missed + 1;
      }
      r := 0;
    }

    /** The entry found is blanked if it is in use, and unlinked otherwise. */
    method RemoveEntry(b: nat, i: nat)
      requires Chains() && b < ATABSIZE && i < |atab[b]|
      modifies this`live, atab
      ensures Chains() && live == old(live) - {old(atab[b][i].name)}
      ensures forall k :: 0 <= k < ATABSIZE && k != b ==> atab[k] == old(atab[k])
      ensures old(atab[b][i].inUse) || (old(atab[b][i].name) != "" && old(Blanked(b))) ==> Blanked(b)
    {
      hide HashAlias, HasBlank, ChainHolds;
      var chain := atab[b];
      ghost var before, name := live, chain[i].name;
      BlanksKept(chain, i);
      NamesHash(chain, b, live, i);
      if chain[i].inUse {
        ChainBlank(chain, b, live, i);
        atab[b] := chain[i := chain[i].(name := "")];
      } else {
        ChainUnlink(chain, b, live, i);
        atab[b] := chain[..i] + chain[i + 1..];
      }
      live := live - {name};
      forall k | 0 <= k < ATABSIZE && k != b
        ensures ChainHolds(atab[k], k, live)
      {
        if name == "" {
          RemovedSize(before, name);
        } else {
          ChainElsewhere(atab[k], k, before, name, "");
        }
      }
    }

    /** setalias: a new entry in front, after any older one of the name is removed. */
    method SetAlias(name: string, val: string)
      requires Counted() && name != ""
      modifies this, atab
      ensures Counted() && live == old(live)[name := val] && missed == old(missed) && !Busy(name)
      ensures forall b :: 0 <= b < ATABSIZE && old(Blanked(b)) ==> Blanked(b)
    {
      hide HashAlias, ChainHolds;
      var r := Unalias(name);
      var b := HashAlias(name);
      ghost var before := live;
      ChainPush(atab[b], b, live, Alias(name, val, false));
      BlanksPushed(atab[b], Alias(name, val, false));
      atab[b] := [Alias(name, val, false)] + atab[b];
      aliases := aliases + 1;
      live := live[name := val];
      AddedSize(before, name, val);
      ReplacedMap(old(live), name, val);
      forall k | 0 <= k < ATABSIZE && k != b
        ensures ChainHolds(atab[k], k, live)
      {
        ChainElsewhere(atab[k], k, before, name, val);
      }
      NewIsIdle(atab[b], b, live);
    }

    /** rmaliases: entries in use are blanked, the others unlinked, and the counter is right
        again, whatever it was. */
    method RmAliases()
      requires Counted()
      modifies this, atab
      ensures Valid() && live == map[]
      ensures forall b :: 0 <= b < ATABSIZE ==> atab[b] == InUseBlanked(old(atab[b]))
    {
      hide InUseBlanked;
      for b := 0 to ATABSIZE
        modifies atab
        invariant forall k :: 0 <= k < b ==> atab[k] == InUseBlanked(old(atab[k]))
        invariant forall k :: b <= k < ATABSIZE ==> atab[k] == old(atab[k])
      {
        atab[b] := BlankChain(atab[b]);
      }
      aliases, live, missed := 0, map[], 0;
    }

    /** The input routine starts or stops reading an alias's text, at any time. */
    method MarkInUse(b: nat, i: nat, used: bool)
      requires Counted() && b < ATABSIZE && i < |atab[b]|
      modifies atab
      ensures Counted() && atab[b] == old(atab[b])[i := old(atab[b][i]).(inUse := used)]
      ensures forall k :: 0 <= k < ATABSIZE && k != b ==> atab[k] == old(atab[k])
    {
      var chain := atab[b];
      atab[b] := chain[i := chain[i].(inUse := used)];
      MarkedHolds(chain, b, live, i, used);
    }

    /** The alias `name` is being read. */
    ghost predicate Busy(name: string)
      requires atab.Length == ATABSIZE
      reads atab
    {
      exists i :: 0 <= i < |atab[HashAlias(name)]| && atab[HashAlias(name)][i].name == name && atab[HashAlias(name)][i].inUse
    }

    /** lookupalias, with its shortcut for an empty table: the first entry of the name,
        withheld when `check` is set and the entry is in use.  For a proper name that is the
        live alias; the empty name finds a blanked entry. */
    method LookupAlias(name: string, check: bool) returns (a: Option<Alias>)
      requires Chains()
      ensures var chain := atab[HashAlias(name)];
              var i := FirstOf(chain, name);
              a == if aliases == 0 || i == |chain| || (check && chain[i].inUse) then None else Some(chain[i])
      ensures name != "" ==> (a.Some? <==> aliases != 0 && name in live && !(check && Busy(name)))
      ensures a.Some? ==> a.value.name == name && (name != "" ==> name in live && a.value.val == live[name])
      ensures Valid() && name != "" ==> (a.Some? <==> name in live && !(check && Busy(name)))
    {
      hide HashAlias;
      LookedUp(name);
      if aliases == 0 {
        assert Valid() ==> live == map[];
        return None;
      }
      var b := HashAlias(name);
      var i := Walk(atab[b], name);
      if i == |atab[b]| || (check && atab[b][i].inUse) {
        return None;
      }
      a := Some(atab[b][i]);
    }

    /** The first entry of a proper name is there exactly for a live alias. */
    lemma LookedUp(name: string)
      requires Chains()
      ensures var chain := atab[HashAlias(name)];
              var i := FirstOf(chain, name);
              name != "" ==> if i == |chain| then name !in live
                             else name in live && chain[i].val == live[name] && (chain[i].inUse <==> Busy(name))
    {
      hide HashAlias;
      var chain := atab[HashAlias(name)];
      assert ChainHolds(chain, HashAlias(name), live);
    }

    /** The filling loop of printaliases: it collects every live alias once, and so fills the
        slots allocated, one for each alias counted, exactly when the counter is right. */
    method CollectAliases() returns (sorted: seq<Alias>)
      requires Chains()
      ensures |sorted| == |live|
      ensures Counted() ==> |sorted| == aliases + missed
      ensures forall i, j :: 0 <= i < j < |sorted| ==> sorted[i].name != sorted[j].name
      ensures forall i :: 0 <= i < |sorted| ==> sorted[i].name in live && live[sorted[i].name] == sorted[i].val
      ensures forall n :: n in live ==> exists i :: 0 <= i < |sorted| && sorted[i].name == n
    {
      hide HashAlias;
      sorted := [];
      for b := 0 to ATABSIZE
        invariant Gathered(sorted, b, live)
      {
        var more := LiveOf(atab[b]);
        GatherMore(sorted, b, live, atab[b], more);
        sorted := sorted + more;
      }
      GatheredAll(sorted, live);
    }
  }

  lemma HashOfN()
    ensures HashAlias("N") == 0 == HashAlias("")
  {
    assert CharSum("N") == 78 + CharSum("N"[1..]);
  }

  /** A table whose only alias, in the empty name's bucket, was removed while in use. */
  method BlankedTable() returns (t: Table)
    ensures t.Valid() && t.live == map[] && t.Blanked(HashAlias("")) && fresh(t) && fresh(t.atab)
  {
    hide HashAlias, ChainHolds;
    HashOfN();
    t := new Table();
    t.SetAlias("N", "first");
    NamesLinked(t.atab[0], 0, t.live, "N");
    var i :| 0 <= i < |t.atab[0]| && t.atab[0][i].name == "N";
    t.MarkInUse(0, i, true);
    assert t.atab[0][i].name == "N" && t.atab[0][i].inUse;
    assert t.Busy("N");
    var r := t.Unalias("N");
    assert t.live == map[];
  }

  /** A run that removes the empty name and so hides a live alias: on such a table another
      alias is defined, and removing the empty name brings the counter to zero, at which the
      lookup of the live alias answers that there is none, and the listing collects one alias
      more than the counter says. */
  method EmptyNameHidesAlias() returns (t: Table, a: Option<Alias>, filled: seq<Alias>)
    ensures t.Chains() && t.live == map["a" := "second"] && !t.Busy("a") && t.aliases == 0
    ensures a == None && |filled| == 1
  {
    hide HashAlias, ChainHolds;
    t := BlankedTable();
    t.SetAlias("a", "second");
    HashesDiffer();
    var r := t.Unalias("");
    a := t.LookupAlias("a", false);
    filled := t.CollectAliases();
  }

  lemma HashesDiffer()
    ensures HashAlias("a") != HashAlias("")
  {
    assert CharSum("a") == 97 + CharSum("a"[1..]);
  }

  lemma RemovedSize(m: map<string, string>, name: string)
    ensures name in m ==> |m - {name}| == |m| - 1
    ensures name !in m ==> m - {name} == m
  {
    assert (m - {name}).Keys == m.Keys - {name};
  }

  lemma AddedSize(m: map<string, string>, name: string, val: string)
    requires name !in m
    ensures |m[name := val]| == |m| + 1
  {
    assert m[name := val].Keys == m.Keys + {name};
  }

  lemma ReplacedMap(m: map<string, string>, name: string, val: string)
    ensures (m - {name})[name := val] == m[name := val]
  {
  }

  lemma MarkedHolds(c: Chain, b: nat, live: map<string, string>, i: nat, used: bool)
    requires ChainHolds(c, b, live) && i < |c|
    ensures ChainHolds(c[i := c[i].(inUse := used)], b, live)
  {
    var c' := c[i := c[i].(inUse := used)];
    forall n | n in live && HashAlias(n) == b
      ensures exists k :: 0 <= k < |c'| && c'[k].name == n
    {
      var k :| 0 <= k < |c| && c[k].name == n;
      assert c'[k].name == n;
    }
  }

  /** The entries in use, in their order, with their names blanked. */
  function InUseBlanked(c: Chain): (r: Chain)
    ensures forall i :: 0 <= i < |r| ==> r[i].name == "" && r[i].inUse
  {
    if c == [] then []
    else
      var n := |c| - 1;
      InUseBlanked(c[..n]) + if c[n].inUse then [c[n].(name := "")] else []
  }

  /** The inner loop of rmaliases on one chain. */
  method BlankChain(c: Chain) returns (r: Chain)
    ensures r == InUseBlanked(c)
  {
    r := c;
    var i := 0;
    ghost var k := 0;
    assert r[..0] == InUseBlanked(c[..0]);
    while i < |r|
      invariant 0 <= i <= |r| && 0 <= k <= |c| && |r| - i == |c| - k
      invariant r[..i] == InUseBlanked(c[..k]) && r[i..] == c[k..]
      decreases |r| - i
    {
      ghost var done := r[..i];
      assert r[i] == r[i..][0] == c[k] && c[..k + 1][..k] == c[..k] && r[i + 1..] == r[i..][1..] == c[k + 1..];
      if r[i].inUse {
        r := r[i := r[i].(name := "")];
        assert r[..i + 1] == done + [r[i]];
        i := i + 1;
      } else {
        r := r[..i] + r[i + 1..];
        assert r[..i] == done;
      }
      k := k + 1;
    }
    assert r[..i] == r && c[..k] == c;
  }

  /** The inner loop of the filling: the entries of a chain whose name is not blank. */
  method LiveOf(c: Chain) returns (r: seq<Alias>)
    ensures r == NamedOf(c)
  {
    r := [];
    for i := 0 to |c|
      invariant r == NamedOf(c[..i])
    {
      assert c[..i + 1][..i] == c[..i];
      if c[i].name != "" {
        r := r + [c[i]];
      }
    }
    assert c[..|c|] == c;
  }

  function NamedOf(c: Chain): seq<Alias> {
    if c == [] then []
    else
      var n := |c| - 1;
      NamedOf(c[..n]) + if c[n].name != "" then [c[n]] else []
  }

  lemma {:induction false} NamedEntries(c: Chain)
    requires forall i, j :: 0 <= i < j < |c| && c[i].name != "" ==> c[i].name != c[j].name
    ensures forall i :: 0 <= i < |NamedOf(c)| ==> NamedOf(c)[i].name != "" && NamedOf(c)[i] in c
    ensures forall i, j :: 0 <= i < j < |NamedOf(c)| ==> NamedOf(c)[i].name != NamedOf(c)[j].name
    ensures forall i :: 0 <= i < |c| && c[i].name != "" ==> c[i] in NamedOf(c)
  {
    if c != [] {
      var n := |c| - 1;
      NamedEntries(c[..n]);
      assert forall a :: a in c[..n] && a.name != "" ==> a in c && a.name != c[n].name;
      assert c == c[..n] + [c[n]];
    }
  }

  /** `s` holds the live aliases of the buckets before `b`, each once. */
  ghost predicate Gathered(s: seq<Alias>, b: nat, live: map<string, string>) {
    && (forall i, j :: 0 <= i < j < |s| ==> s[i].name != s[j].name)
    && (forall i :: 0 <= i < |s| ==> s[i].name in live && live[s[i].name] == s[i].val && HashAlias(s[i].name) < b)
    && (forall n :: n in live && HashAlias(n) < b ==> exists i :: 0 <= i < |s| && s[i].name == n)
  }

  lemma GatherMore(s: seq<Alias>, b: nat, live: map<string, string>, c: Chain, more: seq<Alias>)
    requires Gathered(s, b, live) && ChainHolds(c, b, live) && more == NamedOf(c) && "" !in live
    ensures Gathered(s + more, b + 1, live)
  {
    hide HashAlias, NamedOf;
    NamedEntries(c);
    var s' := s + more;
    assert forall i :: 0 <= i < |more| ==> more[i].name in live && HashAlias(more[i].name) == b;
    forall n | n in live && HashAlias(n) < b + 1
      ensures exists i :: 0 <= i < |s'| && s'[i].name == n
    {
      if HashAlias(n) < b {
        var i :| 0 <= i < |s| && s[i].name == n;
        assert s'[i].name == n;
      } else {
        var i :| 0 <= i < |c| && c[i].name == n;
        FoundInMore(s, more, c, i);
      }
    }
  }

  lemma FoundInMore(s: seq<Alias>, more: seq<Alias>, c: Chain, i: nat)
    requires i < |c| && c[i] in more
    ensures exists k :: 0 <= k < |s + more| && (s + more)[k].name == c[i].name
  {
    var j :| 0 <= j < |more| && more[j] == c[i];
    assert (s + more)[|s| + j].name == c[i].name;
  }

  /** Distinct names that cover the live aliases number as many as they. */
  lemma GatheredAll(s: seq<Alias>, live: map<string, string>)
    requires Gathered(s, ATABSIZE, live)
    ensures |s| == |live|
    ensures forall n :: n in live ==> exists i :: 0 <= i < |s| && s[i].name == n
  {
    var names := seq(|s|, i requires 0 <= i < |s| => s[i].name);
    DistinctCount(names);
    assert (set n | n in names) == live.Keys by {
      forall n | n in live
        ensures n in names
      {
        var i :| 0 <= i < |s| && s[i].name == n;
        assert names[i] == n;
      }
    }
  }

  lemma {:induction false} DistinctCount(names: seq<string>)
    requires forall i, j :: 0 <= i < j < |names| ==> names[i] != names[j]
    ensures |set n | n in names| == |names|
  {
    if names != [] {
      var k := |names| - 1;
      DistinctCount(names[..k]);
      assert (set n | n in names) == (set n | n in names[..k]) + {names[k]};
    }
  }
}
