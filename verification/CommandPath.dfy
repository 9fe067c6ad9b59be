/** The PATH walker: a search path as its list of entries, the first-match search over them,
    and the routine that hands the entries out one at a time.
 */
module CommandPath {
  import opened Basics

  /** One entry of a search path: a directory, and the option after a percent sign. */
  datatype Entry = Entry(dir: string, opt: Option<string>)

  /** Position of the first character of `s` that is in `stops`, or its length. */
  function Span(s: string, stops: set<char>): (n: nat)
    ensures n <= |s|
    ensures n < |s| ==> s[n] in stops
    ensures forall i :: 0 <= i < n ==> s[i] !in stops
  {
    if s == [] || s[0] in stops then 0 else 1 + Span(s[1..], stops)
  }

  function ParseEntry(segment: string, options: bool := true): Entry {
    var n := if options then Span(segment, {'%'}) else |segment|;
    Entry(segment[..n], if n < |segment| then Some(segment[n + 1..]) else None)
  }

  /** The entries of a search path; an empty path has one empty entry.  Without `options`
      percent signs are ordinary. */
  function Entries(path: string, options: bool := true): (es: seq<Entry>)
    ensures es != []
  {
    var n := Span(path, {':'});
    [ParseEntry(path[..n], options)] + if n < |path| then Entries(path[n + 1..], options) else []
  }

  /** The entries still to come; no path means none. */
  function Remaining(path: Option<string>, options: bool := true): seq<Entry> {
    if path.None? then [] else Entries(path.value, options)
  }

  function FullName(e: Entry, name: string): string {
    if e.dir == [] then name else e.dir + "/" + name
  }

  /** A position with only other characters before it is the span. */
  lemma SpanIs(s: string, stops: set<char>, p: nat)
    requires p <= |s| && (p < |s| ==> s[p] in stops)
    requires forall i :: 0 <= i < p ==> s[i] !in stops
    ensures Span(s, stops) == p
  {
    var n := Span(s, stops);
    assert n < |s| ==> s[n] in stops;
    assert p < |s| ==> s[p] in stops;
  }

  /** The first entry and the rest, from where the directory ends (`a`) and where the entry
      ends (`p`). */
  lemma {:induction false} FirstEntry(path: string, a: nat, p: nat, options: bool)
    requires a <= p <= |path| && (a < p ==> path[a] == '%') && (p < |path| ==> path[p] == ':')
    requires forall i :: 0 <= i < p ==> path[i] != ':'
    requires if options then forall i :: 0 <= i < a ==> path[i] != '%' else a == p
    ensures Entries(path, options)[0] == Entry(path[..a], if a < p then Some(path[a + 1..p]) else None)
    ensures Entries(path, options)[1..] == if p < |path| then Entries(path[p + 1..], options) else []
  {
    hide Span, Entries;
    EntriesStep(path, p, options);
    var first := path[..p];
    if options {
      SpanIs(first, {'%'}, a);
    }
    assert first[..a] == path[..a];
    if a < p {
      assert first[a + 1..] == path[a + 1..p];
    }
  }

  lemma {:induction false} EntriesStep(path: string, p: nat, options: bool)
    requires p <= |path| && (p < |path| ==> path[p] == ':')
    requires forall i :: 0 <= i < p ==> path[i] != ':'
    ensures Entries(path, options) ==
            [ParseEntry(path[..p], options)] + if p < |path| then Entries(path[p + 1..], options) else []
  {
    hide Span;
    SpanIs(path, {':'}, p);
  }

  /** The scanning loops: the next colon, or percent sign if those count, from `start` on. */
  method Scan(path: string, start: nat, percent: bool) returns (p: nat)
    requires start <= |path|
    ensures start <= p <= |path|
    ensures p < |path| ==> path[p] == ':' || (percent && path[p] == '%')
    ensures forall i :: start <= i < p ==> path[i] != ':' && (percent ==> path[i] != '%')
  {
    p := start;
    while p < |path| && path[p] != ':' && !(percent && path[p] == '%')
      invariant start <= p <= |path|
      invariant forall i :: start <= i < p ==> path[i] != ':' && (percent ==> path[i] != '%')
    {
      p := p + 1;
    }
  }

  /** padvance: the next full name, the option of its entry, and the rest of the path; with no
      place to put an option, percent signs are ordinary. */
  method Padvance(path: string, name: string, options: bool) returns (full: string, opt: Option<string>, rest: Option<string>)
    ensures var es := Entries(path, options);
            full == FullName(es[0], name) && opt == es[0].opt && Remaining(rest, options) == es[1..]
  {
    hide Entries, Span;
    var a := Scan(path, 0, options);
    full := if a != 0 then path[..a] + "/" + name else name;
    var p := a;
    opt := None;
    if options && a < |path| && path[a] == '%' {
      p := Scan(path, a + 1, false);
      opt := Some(path[a + 1..p]);
    }
    rest := if p < |path| then Some(path[p + 1..]) else None;
    FirstEntry(path, a, p, options);
  }

  // ---------------------------------------------------------------------------
  // Searching.

  datatype Stat = Missing | Denied | Regular | Special

  /** The file system: what stat says about an absolute name. */
  type Files = string -> Stat

  function StatAt(fs: Files, cwd: string, p: string): Stat {
    if IsAbsolute(p) then fs(p) else fs(cwd + "/" + p)
  }

  predicate IsFunc(e: Entry) {
    e.opt.Some? && "func" <= e.opt.value
  }

  /** Entries with an unknown option are passed over. */
  predicate Usable(e: Entry) {
    e.opt.None? || IsFunc(e)
  }

  predicate Hit(fs: Files, cwd: string, e: Entry, name: string) {
    Usable(e) && StatAt(fs, cwd, FullName(e, name)) == Regular
  }

  datatype Match = NoMatch | Match(index: nat)

  /** The first entry from `i` on under which `name` is a regular file. */
  function Search(fs: Files, cwd: string, es: seq<Entry>, name: string, i: nat): (m: Match)
    requires i <= |es|
    ensures m.Match? ==> i <= m.index < |es| && Hit(fs, cwd, es[m.index], name)
    ensures m.Match? ==> forall k :: i <= k < m.index ==> !Hit(fs, cwd, es[k], name)
    ensures m.NoMatch? ==> forall k :: i <= k < |es| ==> !Hit(fs, cwd, es[k], name)
    decreases |es| - i
  {
    if i == |es| then NoMatch
    else if Hit(fs, cwd, es[i], name) then Match(i)
    else Search(fs, cwd, es, name, i + 1)
  }

  /** Whether the result up to entry `n` was decided without the current directory. */
  predicate AbsoluteUpTo(es: seq<Entry>, name: string, n: nat) {
    forall k :: 0 <= k <= n && k < |es| && Usable(es[k]) ==> IsAbsolute(FullName(es[k], name))
  }

  /** A match found without the current directory is found from every directory. */
  lemma SearchMoves(fs: Files, cwd: string, cwd': string, es: seq<Entry>, name: string, n: nat)
    requires Search(fs, cwd, es, name, 0) == Match(n) && AbsoluteUpTo(es, name, n)
    ensures Search(fs, cwd', es, name, 0) == Match(n)
  {
    forall k | 0 <= k <= n
      ensures Hit(fs, cwd', es[k], name) == Hit(fs, cwd, es[k], name)
    {
    }
  }
}
