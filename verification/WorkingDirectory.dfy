/** The logical path normaliser behind `cd`: it edits one string, pushing components and
    popping back to the previous slash, and is proved to fold the components over a stack.
 */
module WorkingDirectory {
  import opened Basics

  /** Length of the first component. */
  function SlashAt(s: string): (n: nat)
    ensures n <= |s| && (n < |s| ==> s[n] == '/') && '/' !in s[..n]
  {
    if s == [] || s[0] == '/' then 0
    else
      var n := 1 + SlashAt(s[1..]);
      assert s[..n] == [s[0]] + s[1..][..n - 1];
      n
  }

  /** The components between slashes, empty ones included. */
  function Split(s: string): (cs: seq<string>)
    ensures cs != [] && forall i :: 0 <= i < |cs| ==> '/' !in cs[i]
  {
    var n := SlashAt(s);
    [s[..n]] + if n < |s| then Split(s[n + 1..]) else []
  }

  /** A component that stays in a normalised path. */
  predicate Proper(c: string) {
    c != "" && c != "." && c != ".." && '/' !in c
  }

  ghost predicate AllProper(stack: seq<string>) {
    forall i :: 0 <= i < |stack| ==> Proper(stack[i])
  }

  function Step(stack: seq<string>, c: string): seq<string> {
    if c == ".." then (if stack == [] then [] else stack[..|stack| - 1])
    else if c == "" || c == "." then stack
    else stack + [c]
  }

  /** Components folded over a stack from the left. */
  function Walk(stack: seq<string>, cs: seq<string>): seq<string>
    decreases |cs|
  {
    if cs == [] then stack else Walk(Step(stack, cs[0]), cs[1..])
  }

  /** A slash before every component. */
  function Text(stack: seq<string>): string {
    if stack == [] then "" else Text(stack[..|stack| - 1]) + "/" + stack[|stack| - 1]
  }

  /** The absolute path of a stack. */
  function PathOf(stack: seq<string>): string {
    if stack == [] then "/" else Text(stack)
  }

  /** A path without its last slash. */
  function Trimmed(path: string): string {
    if path != [] && path[|path| - 1] == '/' then path[..|path| - 1] else path
  }

  /** The components of an absolute path as it stands, normalised or not. */
  function StackOf(path: string): seq<string> {
    Split(Trimmed(path))[1..]
  }

  /** What the path `dir` names from the directory of `stack`. */
  function Resolved(stack: seq<string>, dir: string): seq<string> {
    Walk(if IsAbsolute(dir) then [] else stack, Split(dir))
  }

  // ---------------------------------------------------------------------------

  lemma {:induction false} WalkProper(stack: seq<string>, cs: seq<string>)
    requires AllProper(stack) && forall i :: 0 <= i < |cs| ==> '/' !in cs[i]
    ensures AllProper(Walk(stack, cs))
    decreases |cs|
  {
    if cs != [] {
      WalkProper(Step(stack, cs[0]), cs[1..]);
    }
  }

  lemma {:induction false} WalkAppend(stack: seq<string>, a: seq<string>, b: seq<string>)
    ensures Walk(stack, a + b) == Walk(Walk(stack, a), b)
    decreases |a|
  {
    if a == [] {
      assert a + b == b;
    } else {
      assert (a + b)[1..] == a[1..] + b;
      WalkAppend(Step(stack, a[0]), a[1..], b);
    }
  }

  lemma {:induction false} WalkPushes(stack: seq<string>, cs: seq<string>)
    requires AllProper(cs)
    ensures Walk(stack, cs) == stack + cs
    decreases |cs|
  {
    if cs != [] {
      WalkPushes(stack + [cs[0]], cs[1..]);
      assert stack + [cs[0]] + cs[1..] == stack + cs;
    }
  }

  lemma SlashAtIs(s: string, n: nat)
    requires n <= |s| && (n < |s| ==> s[n] == '/') && forall i :: 0 <= i < n ==> s[i] != '/'
    ensures SlashAt(s) == n
  {
    var k := SlashAt(s);
    assert forall i :: 0 <= i < k ==> s[..k][i] == s[i];
  }

  lemma SplitStep(s: string)
    ensures var n := SlashAt(s); Split(s) == [s[..n]] + if n < |s| then Split(s[n + 1..]) else []
  {
  }

  lemma SplitFirst(c: string, rest: string)
    requires '/' !in c
    ensures Split(c + "/" + rest) == [c] + Split(rest)
  {
    hide Split, SlashAt;
    var s := c + "/" + rest;
    SlashAtIs(s, |c|);
    SplitStep(s);
    assert s[..|c|] == c && s[|c| + 1..] == rest;
  }

  lemma SplitOne(c: string)
    requires '/' !in c
    ensures Split(c) == [c]
  {
    hide Split, SlashAt;
    SlashAtIs(c, |c|);
    SplitStep(c);
    assert c[..|c|] == c;
  }

  lemma {:induction false} SplitAppend(q: string, p: string)
    ensures Split(q + "/" + p) == Split(q) + Split(p)
    decreases |q|
  {
    hide Split, SlashAt;
    var n := SlashAt(q);
    SplitStep(q);
    if n == |q| {
      assert q[..n] == q;
      SplitFirst(q, p);
    } else {
      SplitAppend(q[n + 1..], p);
      SplitFirst(q[..n], q[n + 1..] + "/" + p);
      assert q + "/" + p == q[..n] + "/" + (q[n + 1..] + "/" + p);
      assert [q[..n]] + (Split(q[n + 1..]) + Split(p)) == Split(q) + Split(p);
    }
  }

  lemma {:induction false} SplitText(stack: seq<string>)
    requires AllProper(stack)
    ensures Split(Text(stack)) == [""] + stack
    decreases |stack|
  {
    hide Split, SlashAt;
    if stack == [] {
      SplitOne("");
    } else {
      var n := |stack| - 1;
      SplitText(stack[..n]);
      SplitAppend(Text(stack[..n]), stack[n]);
      SplitOne(stack[n]);
      assert [""] + stack[..n] + [stack[n]] == [""] + stack;
    }
  }

  lemma {:induction false} TextStarts(stack: seq<string>)
    requires stack != []
    ensures Text(stack) != [] && Text(stack)[0] == '/'
    decreases |stack|
  {
    if |stack| > 1 {
      TextStarts(stack[..|stack| - 1]);
    }
  }

  /** Every resolved path is absolute and has no empty, "." or ".." component; resolving it
      again from anywhere gives itself; and another normalised directory has another path. */
  lemma NormalForm(stack: seq<string>, dir: string, other: seq<string>)
    requires AllProper(stack)
    ensures AllProper(Resolved(stack, dir)) && IsAbsolute(PathOf(Resolved(stack, dir)))
    ensures Resolved(other, PathOf(Resolved(stack, dir))) == Resolved(stack, dir)
    ensures AllProper(other) && PathOf(other) == PathOf(Resolved(stack, dir)) ==> other == Resolved(stack, dir)
  {
    hide Resolved, Walk, Split;
    var r := Resolved(stack, dir);
    ResolvedProper(stack, dir);
    PathReadsBack(r, other);
    if r != [] {
      TextStarts(r);
    }
    if AllProper(other) {
      PathReadsBack(other, other);
    }
  }

  lemma ResolvedProper(stack: seq<string>, dir: string)
    requires AllProper(stack)
    ensures AllProper(Resolved(stack, dir))
  {
    WalkProper([], Split(dir));
    WalkProper(stack, Split(dir));
  }

  lemma PathReadsBack(stack: seq<string>, other: seq<string>)
    requires AllProper(stack)
    ensures Resolved(other, PathOf(stack)) == stack
  {
    var p := PathOf(stack);
    if stack == [] {
      SlashAtIs("/", 0);
      assert "/"[1..] == "" && Split("") == [""];
      assert Split("/") == ["", ""];
      assert Walk([], ["", ""]) == Walk([], ["", ""][1..]);
    } else {
      TextStarts(stack);
      SplitText(stack);
      assert ([""] + stack)[1..] == stack;
      WalkPushes([], stack);
    }
  }

  /** Changing to `q` and then to a relative `p` is changing to `q/p`. */
  lemma ResolveInSteps(stack: seq<string>, q: string, p: string)
    requires p == [] || p[0] != '/'
    requires q != []
    ensures Resolved(Resolved(stack, q), p) == Resolved(stack, q + "/" + p)
  {
    SplitAppend(q, p);
    WalkAppend(if q[0] == '/' then [] else stack, Split(q), Split(p));
    assert (q + "/" + p)[0] == q[0];
  }

  // ---------------------------------------------------------------------------
  // Paths that are not normalised.

  lemma {:induction false} TextCons(c: string, cs: seq<string>)
    ensures Text([c] + cs) == "/" + c + Text(cs)
    decreases |cs|
  {
    if cs == [] {
      assert [c] + cs == [c] && [c][..0] == [];
    } else {
      var n := |cs| - 1;
      assert ([c] + cs)[..n + 1] == [c] + cs[..n] && ([c] + cs)[n + 1] == cs[n];
      TextCons(c, cs[..n]);
    }
  }

  /** The components with the slashes between them are the string. */
  lemma {:induction false} SplitJoins(s: string)
    ensures Split(s)[0] + Text(Split(s)[1..]) == s
    decreases |s|
  {
    hide Split, SlashAt, Text;
    var n := SlashAt(s);
    SplitStep(s);
    if n == |s| {
      assert Split(s)[1..] == [];
      NoText();
    } else {
      var rest := s[n + 1..];
      SplitJoins(rest);
      assert Split(s)[1..] == Split(rest) == [Split(rest)[0]] + Split(rest)[1..];
      TextCons(Split(rest)[0], Split(rest)[1..]);
    }
  }

  lemma NoText()
    ensures Text([]) == ""
  {
  }

  /** An absolute path without its last slash is the text of its components. */
  lemma StackText(path: string)
    requires IsAbsolute(path)
    ensures Text(StackOf(path)) == Trimmed(path)
    ensures forall i :: 0 <= i < |StackOf(path)| ==> '/' !in StackOf(path)[i]
  {
    hide Split, Text, SlashAt;
    var t := Trimmed(path);
    SplitJoins(t);
    SplitStep(t);
    SlashAtIs(t, 0);
  }

  /** A normalised path has the components it was made of. */
  lemma StackReadsBack(stack: seq<string>)
    requires AllProper(stack)
    ensures StackOf(PathOf(stack)) == stack
  {
    hide Split, SlashAt, Text;
    SplitText(stack);
    if stack == [] {
      NoText();
      assert "/"[..0] == "";
    } else {
      LastIsProper(stack);
    }
    assert ([""] + stack)[1..] == stack;
  }

  /** How much of a stack is left untouched by the components `cs`: its height is `height` now
      and was never below `floor`. */
  function Kept(height: nat, floor: nat, cs: seq<string>): (k: nat)
    requires floor <= height
    ensures k <= floor
    decreases |cs|
  {
    if cs == [] then floor
    else if cs[0] == ".." then
      var h := if height == 0 then 0 else height - 1;
      Kept(h, if h < floor then h else floor, cs[1..])
    else if cs[0] == "" || cs[0] == "." then Kept(height, floor, cs[1..])
    else Kept(height + 1, floor, cs[1..])
  }

  lemma {:induction false} WalkKeeps(stack: seq<string>, floor: nat, cs: seq<string>)
    requires floor <= |stack| && AllProper(stack[floor..]) && forall i :: 0 <= i < |cs| ==> '/' !in cs[i]
    ensures AllProper(Walk(stack, cs)) <==> AllProper(stack[..Kept(|stack|, floor, cs)])
    decreases |cs|
  {
    if cs == [] {
      assert stack == stack[..floor] + stack[floor..];
    } else {
      var next := Step(stack, cs[0]);
      var low := if |next| < floor then |next| else floor;
      WalkKeeps(next, low, cs[1..]);
      var k := Kept(|next|, low, cs[1..]);
      assert next[..k] == stack[..k];
    }
  }

  /** From any absolute current directory, normalised or not, the result is normalised if and
      only if the path given is absolute or the components of the current directory that it
      leaves in place are proper. */
  lemma NormalIff(curdir: string, dir: string)
    requires IsAbsolute(curdir)
    ensures var stack := StackOf(curdir);
            AllProper(Resolved(stack, dir)) <==>
              IsAbsolute(dir) || AllProper(stack[..Kept(|stack|, |stack|, Split(dir))])
  {
    hide Split, Walk;
    WalkProper([], Split(dir));
    WalkKeeps(StackOf(curdir), |StackOf(curdir)|, Split(dir));
  }

  /** A current directory taken over with a doubled slash: going up one level leaves a slash at
      the end, and going up two levels ends one level too low. */
  lemma DoubledSlash()
    ensures StackOf("/a//b") == ["a", "", "b"]
    ensures PathOf(Resolved(StackOf("/a//b"), "..")) == "/a/"
    ensures Resolved(StackOf("/a//b"), "../..") == ["a"] && Resolved(Resolved([], "/a//b"), "../..") == []
  {
    hide Split, SlashAt, Walk, Text;
    ExampleComponents();
    ExampleWalk();
    UpTwice(["a", "", "b"]);
    UpTwice(["a", "b"]);
    assert ["a", "", "b"][..2] == ["a", ""] && ["a", "", "b"][..1] == ["a"] && ["a", "b"][..0] == [];
  }

  lemma ExampleComponents()
    ensures Split("/a//b") == ["", "a", "", "b"] && Split("..") == [".."] && Split("../..") == ["..", ".."]
    ensures Trimmed("/a//b") == "/a//b" && ["", "a", "", "b"][1..] == ["a", "", "b"]
  {
    hide Split, SlashAt;
    SplitFirst("", "a//b");
    SplitFirst("a", "/b");
    SplitFirst("", "b");
    SplitOne("b");
    assert "" + "/" + "a//b" == "/a//b" && "a" + "/" + "/b" == "a//b" && "" + "/" + "b" == "/b";
    SplitOne("..");
    SplitFirst("..", "..");
    assert ".." + "/" + ".." == "../..";
  }

  lemma ExampleWalk()
    ensures Walk([], ["", "a", "", "b"]) == ["a", "b"] && Text(["a", ""]) == "/a/"
  {
    assert ["", "a", "", "b"][1..] == ["a", "", "b"] && ["a", "", "b"][1..] == ["", "b"] && ["", "b"][1..] == ["b"];
    assert ["b"][1..] == [];
    assert Walk(["a"], ["b"]) == Walk(["a"] + ["b"], []);
    assert Walk(["a"], ["", "b"]) == Walk(["a"], ["b"]);
    assert ["a", ""][..1] == ["a"] && ["a"][..0] == [];
    assert Text(["a"]) == "/a";
  }

  lemma UpTwice(stack: seq<string>)
    requires |stack| >= 2
    ensures Walk(stack, [".."]) == stack[..|stack| - 1] && Walk(stack, ["..", ".."]) == stack[..|stack| - 2]
  {
    var n := |stack|;
    assert ["..", ".."][1..] == [".."] && [".."][1..] == [];
    assert Walk(stack, [".."]) == Walk(stack[..n - 1], []);
    assert Walk(stack, ["..", ".."]) == Walk(stack[..n - 1], [".."]) == Walk(stack[..n - 1][..n - 2], []);
    assert stack[..n - 1][..n - 2] == stack[..n - 2];
  }

  // ---------------------------------------------------------------------------

  /** getcomponent: the next component and the rest of the path. */
  method GetComponent(path: string) returns (c: string, rest: Option<string>)
    ensures c == Split(path)[0]
    ensures if rest.Some? then Split(rest.value) == Split(path)[1..] && |rest.value| < |path| else |Split(path)| == 1
  {
    var p := 0;
    while p < |path| && path[p] != '/'
      invariant 0 <= p <= |path|
      invariant forall i :: 0 <= i < p ==> path[i] != '/'
    {
      p := p + 1;
    }
    SlashAtIs(path, p);
    c := path[..p];
    rest := if p == |path| then None else Some(path[p + 1..]);
  }

  /** Popping characters up to and including the last slash removes the last component. */
  method PopComponent(text: string, ghost stack: seq<string>) returns (t: string)
    requires text == Text(stack) && forall i :: 0 <= i < |stack| ==> '/' !in stack[i]
    ensures t == Text(Step(stack, ".."))
  {
    t := text;
    if |t| == 0 {
      assert stack == [] by { if stack != [] { TextStarts(stack); } }
      return;
    }
    assert stack != [];
    ghost var n := |stack| - 1;
    ghost var c := stack[n];
    ghost var keep := Text(stack[..n]);
    assert forall i :: |keep| < i < |text| ==> text[i] == c[i - |keep| - 1] && text[i] in c;
    while true
      invariant |keep| < |t| <= |text| && t == text[..|t|]
      decreases |t|
    {
      var top := t[|t| - 1];
      t := t[..|t| - 1];
      if top == '/' {
        break;
      }
    }
    assert t == keep;
  }

  /** findcwd for a known current directory, which is absolute but need not be normalised: the
      logical name of `dir`. */
  method FindCwd(curdir: string, dir: string) returns (result: string)
    requires IsAbsolute(curdir)
    ensures result == PathOf(Resolved(StackOf(curdir), dir))
  {
    hide Split, StackOf;
    var text := "";
    ghost var s: seq<string> := [];
    if At(dir) != '/' {
      StackText(curdir);
      s := StackOf(curdir);
      text := curdir;
      if text[|text| - 1] == '/' {
        text := text[..|text| - 1];
      }
    }
    var path := Some(dir);
    ghost var left := Split(dir);
    while path.Some?
      invariant text == Text(s) && forall i :: 0 <= i < |s| ==> '/' !in s[i]
      invariant Walk(s, left) == Resolved(StackOf(curdir), dir)
      invariant left == if path.Some? then Split(path.value) else []
      decreases if path.Some? then |path.value| + 1 else 0
    {
      var c, rest := GetComponent(path.value);
      assert '/' !in c;
      if c == ".." {
        text := PopComponent(text, s);
      } else if c != "" && c != "." {
        text := text + "/" + c;
        assert (s + [c])[..|s|] == s;
      }
      s := Step(s, c);
      left := left[1..];
      path := rest;
    }
    result := text;
    if text == "" {
      assert s == [] by { if s != [] { TextStarts(s); } }
      result := "/";
    }
  }

  /** The text of a non-empty stack does not end in a slash. */
  lemma LastIsProper(stack: seq<string>)
    requires AllProper(stack) && stack != []
    ensures Text(stack) != [] && Text(stack)[|Text(stack)| - 1] != '/'
  {
    var c := stack[|stack| - 1];
    assert Proper(c) && c[|c| - 1] in c;
    assert Text(stack)[|Text(stack)| - 1] == c[|c| - 1];
  }
}
