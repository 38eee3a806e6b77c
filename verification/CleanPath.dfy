/** Lexical path cleaning (`File::CleanUnixPath` of runtime/bin/file.cc), after "Lexical
    File Names in Plan 9 or Getting Dot-Dot Right". The reference is what a path means:
    where it leads from any current directory in a tree without links. */
module CleanPath {

  import opened FileSystem

  // ------------------------------------------------------- what a path means

  /** The components between separators, empty ones included. */
  function Parts(s: string): (r: seq<string>)
    ensures r != []
  {
    var n := FirstLength(s);
    if n == |s| then [s] else [s[..n]] + Parts(s[n + 1..])
  }

  lemma {:induction false} PartsHaveNoSlash(s: string)
    ensures forall i :: 0 <= i < |Parts(s)| ==> '/' !in Parts(s)[i]
  {
    var n := FirstLength(s);
    FirstLengthStops(s);
    if n < |s| {
      PartsHaveNoSlash(s[n + 1..]);
    } else {
      assert s[..n] == s;
    }
  }

  predicate IsRooted(s: string) {
    s != "" && s[0] == '/'
  }

  /** A location is the sequence of names from the root. */
  type Location = seq<string>

  function Parent(l: Location): Location {
    if l == [] then [] else l[..|l| - 1]
  }

  function Follow(l: Location, part: string): Location {
    if part == "" || part == "." then l
    else if part == ".." then Parent(l)
    else l + [part]
  }

  function FollowAll(l: Location, parts: seq<string>): Location {
    if parts == [] then l else Follow(FollowAll(l, parts[..|parts| - 1]), parts[|parts| - 1])
  }

  /** Where a path leads from the current directory `cwd`. */
  function Resolve(cwd: Location, s: string): Location {
    FollowAll(if IsRooted(s) then [] else cwd, Parts(s))
  }

  predicate IsName(c: string) {
    c != "" && c != "." && c != ".." && '/' !in c
  }

  predicate IsLocation(l: Location) {
    forall i :: 0 <= i < |l| ==> IsName(l[i])
  }

  // ------------------------------------------------- the rules, on components

  /** Rules 2 to 5: the component stack after one more component. */
  function Push(rooted: bool, stack: seq<string>, part: string): (r: seq<string>) {
    if part == "" || part == "." then stack
    else if part != ".." then stack + [part]
    else if stack != [] && stack[|stack| - 1] != ".." then stack[..|stack| - 1]
    else if rooted then stack
    else stack + [".."]
  }

  function PushAll(rooted: bool, stack: seq<string>, parts: seq<string>): (r: seq<string>)
    decreases |parts|
  {
    if parts == [] then stack else PushAll(rooted, Push(rooted, stack, parts[0]), parts[1..])
  }

  function Join(stack: seq<string>): string {
    if stack == [] then "" else if |stack| == 1 then stack[0]
    else Join(stack[..|stack| - 1]) + "/" + stack[|stack| - 1]
  }

  function Text(rooted: bool, stack: seq<string>): string {
    (if rooted then "/" else "") + Join(stack)
  }

  function Render(rooted: bool, stack: seq<string>): string {
    if Text(rooted, stack) == "" then "." else Text(rooted, stack)
  }

  function CleanStack(s: string): seq<string> {
    PushAll(IsRooted(s), [], Parts(s))
  }

  function Clean(s: string): string {
    Render(IsRooted(s), CleanStack(s))
  }

  /** A cleaned stack: `k` leading dot-dots, none if rooted, then names. */
  predicate IsClean(rooted: bool, stack: seq<string>, k: nat) {
    && k <= |stack| && (rooted ==> k == 0)
    && (forall i :: 0 <= i < k ==> stack[i] == "..")
    && (forall i :: k <= i < |stack| ==> IsName(stack[i]))
  }

  lemma PushIsClean(rooted: bool, stack: seq<string>, k: nat, part: string) returns (k': nat)
    requires IsClean(rooted, stack, k) && '/' !in part
    ensures IsClean(rooted, Push(rooted, stack, part), k')
    ensures k' == if part == ".." && |stack| == k && !rooted then k + 1 else k
  {
    k' := if part == ".." && |stack| == k && !rooted then k + 1 else k;
  }

  lemma {:induction false} PushAllIsClean(rooted: bool, stack: seq<string>, k: nat, parts: seq<string>) returns (k': nat)
    requires IsClean(rooted, stack, k) && forall i :: 0 <= i < |parts| ==> '/' !in parts[i]
    ensures IsClean(rooted, PushAll(rooted, stack, parts), k')
    decreases |parts|
  {
    k' := k;
    if parts != [] {
      k' := PushIsClean(rooted, stack, k, parts[0]);
      k' := PushAllIsClean(rooted, Push(rooted, stack, parts[0]), k', parts[1..]);
    }
  }

  // ------------------------------------------------------ meaning is preserved

  lemma FollowPush(rooted: bool, l: Location, stack: seq<string>, k: nat, part: string)
    requires IsClean(rooted, stack, k) && (rooted ==> l == [])
    ensures FollowAll(l, Push(rooted, stack, part)) == Follow(FollowAll(l, stack), part)
  {
    var r := Push(rooted, stack, part);
    if |r| == |stack| + 1 {
      assert r[..|r| - 1] == stack;
    }
    if part == ".." && |stack| > k {
      assert IsName(stack[|stack| - 1]);
    }
  }

  lemma {:induction false} FollowPushAll(rooted: bool, l: Location, stack: seq<string>, k: nat, parts: seq<string>)
    requires IsClean(rooted, stack, k) && (rooted ==> l == []) && forall i :: 0 <= i < |parts| ==> '/' !in parts[i]
    ensures FollowAll(l, PushAll(rooted, stack, parts)) == FollowAll(FollowAll(l, stack), parts)
    decreases |parts|
  {
    if parts != [] {
      var k' := PushIsClean(rooted, stack, k, parts[0]);
      FollowPush(rooted, l, stack, k, parts[0]);
      FollowPushAll(rooted, l, Push(rooted, stack, parts[0]), k', parts[1..]);
      FollowFirst(FollowAll(l, stack), parts);
    }
  }

  lemma {:induction false} FollowFirst(l: Location, parts: seq<string>)
    requires parts != []
    ensures FollowAll(l, parts) == FollowAll(Follow(l, parts[0]), parts[1..])
  {
    var n := |parts| - 1;
    if n > 0 {
      FollowFirst(l, parts[..n]);
      assert parts[..n][1..] == parts[1..][..n - 1];
    } else {
      assert parts[..0] == [];
    }
  }

  lemma Associate<T>(x: T, s: seq<T>, y: T)
    ensures [x] + (s + [y]) == [x] + s + [y]
  {}

  lemma Regroup<T>(a: seq<T>, b: seq<T>, c: seq<T>, d: seq<T>, e: seq<T>)
    ensures a + b + c + d + e == a + b + (c + d + e)
  {}

  lemma PartsPlain(b: string)
    requires '/' !in b
    ensures FirstLength(b) == |b| && Parts(b) == [b]
  {
    FirstLengthAppend(b, "");
    assert b + "" == b && b[..|b|] == b;
  }

  lemma PartsCons(a: string, rest: string)
    requires '/' !in a
    ensures Parts(a + "/" + rest) == [a] + Parts(rest)
  {
    var s := a + "/" + rest;
    FirstLengthAppend(a, "/" + rest);
    assert s == a + ("/" + rest);
    assert s[..|a|] == a && s[|a| + 1..] == rest;
  }

  lemma PartsSnocStep(first: string, rest: string, b: string)
    requires '/' !in first && Parts(rest + "/" + b) == Parts(rest) + [b]
    ensures Parts(first + "/" + rest + "/" + b) == Parts(first + "/" + rest) + [b]
  {
    var tail := rest + "/" + b;
    PartsCons(first, rest);
    PartsCons(first, tail);
    Regroup(first, "/", rest, "/", b);
    Associate(first, Parts(rest), b);
  }

  lemma {:induction false} PartsSnoc(a: string, b: string)
    requires '/' !in b
    ensures Parts(a + "/" + b) == Parts(a) + [b]
    decreases |a|
  {
    var n := FirstLength(a);
    FirstLengthStops(a);
    if n == |a| {
      assert a[..n] == a;
      PartsPlain(a);
      PartsPlain(b);
      PartsCons(a, b);
    } else {
      var first, rest := a[..n], a[n + 1..];
      PartsSnoc(rest, b);
      PartsSnocStep(first, rest, b);
      assert a == first + "/" + rest;
    }
  }

  lemma {:induction false} PartsJoin(stack: seq<string>)
    requires stack != [] && forall i :: 0 <= i < |stack| ==> '/' !in stack[i]
    ensures Parts(Join(stack)) == stack
  {
    var n := |stack| - 1;
    if n == 0 {
      PartsPlain(stack[0]);
    } else {
      PartsJoin(stack[..n]);
      PartsSnoc(Join(stack[..n]), stack[n]);
    }
  }

  lemma {:induction false} JoinStart(stack: seq<string>)
    requires stack != [] && forall i :: 0 <= i < |stack| ==> stack[i] != "" && '/' !in stack[i]
    ensures Join(stack) != "" && Join(stack)[0] != '/'
  {
    if |stack| > 1 {
      JoinStart(stack[..|stack| - 1]);
    } else {
      assert stack[0][0] in stack[0];
    }
  }

  /** Rendering a cleaned stack and following the text is following the stack. */
  lemma FollowRender(rooted: bool, stack: seq<string>, k: nat, l: Location)
    requires IsClean(rooted, stack, k)
    ensures IsRooted(Render(rooted, stack)) == rooted
    ensures FollowAll(l, Parts(Render(rooted, stack))) == FollowAll(l, stack)
  {
    var body := Join(stack);
    if stack != [] {
      JoinStart(stack);
      PartsJoin(stack);
    } else {
      assert Parts("") == [""] && Parts(".") == ["."];
      FollowFirst(l, [""]);
      FollowFirst(l, ["."]);
    }
    if rooted {
      assert ("/" + body)[1..] == body && ("/" + body)[..0] == "";
      assert Parts("/" + body) == [""] + Parts(body);
      FollowFirst(l, [""] + Parts(body));
      assert ([""] + Parts(body))[1..] == Parts(body);
    } else {
      assert "" + body == body;
    }
  }

  /** The components that are left lead where the path led. */
  lemma CleanStackLeads(cwd: Location, s: string) returns (k: nat)
    ensures IsClean(IsRooted(s), CleanStack(s), k)
    ensures FollowAll(if IsRooted(s) then [] else cwd, CleanStack(s)) == Resolve(cwd, s)
  {
    PartsHaveNoSlash(s);
    k := PushAllIsClean(IsRooted(s), [], 0, Parts(s));
    FollowPushAll(IsRooted(s), if IsRooted(s) then [] else cwd, [], 0, Parts(s));
  }

  /** A cleaned path leads where the path led, from everywhere. */
  lemma CleanKeepsMeaning(cwd: Location, s: string)
    ensures Resolve(cwd, Clean(s)) == Resolve(cwd, s)
  {
    var k := CleanStackLeads(cwd, s);
    FollowRender(IsRooted(s), CleanStack(s), k, if IsRooted(s) then [] else cwd);
  }

  // --------------------------------------------------------- and is canonical

  /** What is left of a location after going up `k` times. */
  function Up(l: Location, k: nat): Location {
    if k <= |l| then l[..|l| - k] else []
  }

  lemma {:induction false} FollowClean(rooted: bool, stack: seq<string>, k: nat, l: Location)
    requires IsClean(rooted, stack, k)
    ensures FollowAll(l, stack) == Up(l, k) + stack[k..]
  {
    if stack != [] {
      var n := |stack| - 1;
      if k <= n {
        FollowClean(rooted, stack[..n], k, l);
        assert IsName(stack[n]);
        LastApart(Up(l, k), stack, k);
      } else {
        FollowClean(rooted, stack[..n], k - 1, l);
        assert stack[n] == ".." && stack[..n][k - 1..] == [] && stack[k..] == [];
        UpOnce(l, k - 1);
      }
    }
  }

  lemma LastApart(up: Location, stack: seq<string>, k: nat)
    requires k < |stack|
    ensures var n := |stack| - 1; up + stack[k..] == up + stack[..n][k..] + [stack[n]]
  {}

  lemma UpOnce(l: Location, k: nat)
    ensures Parent(Up(l, k) + []) == Up(l, k + 1) + []
  {
    assert Up(l, k) + [] == Up(l, k) && Up(l, k + 1) + [] == Up(l, k + 1);
    assert Parent(Up(l, k)) == Up(l, k + 1);
  }

  /** A name longer than all of these. */
  function Fresh(names: seq<string>): (f: string)
    ensures IsName(f) && |f| > 2 && f !in names
    ensures forall i :: 0 <= i < |names| ==> |names[i]| < |f|
    ensures forall i :: 0 <= i < |f| ==> f[i] == 'x'
  {
    if names == [] then "xxx"
    else
      var f := Fresh(names[1..]);
      if |names[0]| < |f| then f else seq(|names[0]| + 1, _ => 'x')
  }

  lemma SameCount<T>(t: seq<T>, f: T, m: nat, n: nat)
    requires m <= |t| && n <= |t|
    requires forall i :: 0 <= i < |t| ==> (t[i] == f <==> i < m)
    requires forall i :: 0 <= i < |t| ==> (t[i] == f <==> i < n)
    ensures m == n
  {
    assert m < |t| ==> t[m] != f;
    assert n < |t| ==> t[n] != f;
  }

  function Repeat<T>(x: T, n: nat): (r: seq<T>)
    ensures |r| == n && forall i :: 0 <= i < n ==> r[i] == x
  {
    seq(n, _ => x)
  }

  /** From `n` times a name that does not occur in it, a cleaned stack leads to what is
      left of those names and then its own. */
  lemma Marks(rooted: bool, stack: seq<string>, k: nat, f: string, n: nat)
    requires IsClean(rooted, stack, k) && k < n && forall i :: 0 <= i < |stack| ==> stack[i] != f
    ensures var t := FollowAll(if rooted then [] else Repeat(f, n), stack);
            var m := if rooted then 0 else n - k;
            && m <= |t| && t[m..] == stack[k..]
            && forall i :: 0 <= i < |t| ==> (t[i] == f <==> i < m)
  {
    var cwd := Repeat(f, n);
    FollowClean(rooted, stack, k, if rooted then [] else cwd);
    var t := FollowAll(if rooted then [] else cwd, stack);
    var m := if rooted then 0 else n - k;
    assert t == cwd[..m] + stack[k..];
  }

  lemma SameStack(r1: bool, s1: seq<string>, k1: nat, r2: bool, s2: seq<string>, k2: nat)
    requires IsClean(r1, s1, k1) && IsClean(r2, s2, k2)
    requires forall l :: IsLocation(l) ==> FollowAll(if r1 then [] else l, s1) == FollowAll(if r2 then [] else l, s2)
    ensures r1 == r2 && s1 == s2
  {
    var f := Fresh(s1 + s2);
    forall i | 0 <= i < |s1| ensures s1[i] != f { assert (s1 + s2)[i] == s1[i]; }
    forall i | 0 <= i < |s2| ensures s2[i] != f { assert (s1 + s2)[|s1| + i] == s2[i]; }
    var n := k1 + k2 + 1;
    Marks(r1, s1, k1, f, n);
    Marks(r2, s2, k2, f, n);
    var cwd := Repeat(f, n);
    assert IsLocation(cwd);
    var t := FollowAll(if r1 then [] else cwd, s1);
    assert t == FollowAll(if r2 then [] else cwd, s2);
    SameCount(t, f, if r1 then 0 else n - k1, if r2 then 0 else n - k2);
    assert s1 == s1[..k1] + s1[k1..] && s2 == s2[..k2] + s2[k2..];
  }

  lemma SameMeaning(s: string, t: string)
    requires forall cwd :: IsLocation(cwd) ==> Resolve(cwd, s) == Resolve(cwd, t)
    ensures Clean(s) == Clean(t)
  {
    var k1 := CleanStackLeads([], s);
    var k2 := CleanStackLeads([], t);
    forall l | IsLocation(l)
      ensures FollowAll(if IsRooted(s) then [] else l, CleanStack(s)) == FollowAll(if IsRooted(t) then [] else l, CleanStack(t))
    {
      var _ := CleanStackLeads(l, s);
      var _ := CleanStackLeads(l, t);
    }
    SameStack(IsRooted(s), CleanStack(s), k1, IsRooted(t), CleanStack(t), k2);
  }

  /** Two paths have the same cleaned form exactly when they lead to the same place from
      every current directory. */
  lemma CleanIsCanonical(s: string, t: string)
    ensures Clean(s) == Clean(t) <==> forall cwd :: IsLocation(cwd) ==> Resolve(cwd, s) == Resolve(cwd, t)
  {
    if Clean(s) == Clean(t) {
      forall cwd | IsLocation(cwd) ensures Resolve(cwd, s) == Resolve(cwd, t) {
        CleanKeepsMeaning(cwd, s);
        CleanKeepsMeaning(cwd, t);
      }
    } else if forall cwd :: IsLocation(cwd) ==> Resolve(cwd, s) == Resolve(cwd, t) {
      SameMeaning(s, t);
    }
  }

  // ------------------------------------------------------------ and is shortest

  /** The length of components, each with a separator. */
  function Width(parts: seq<string>): nat {
    if parts == [] then 0 else |parts[0]| + 1 + Width(parts[1..])
  }

  lemma {:induction false} WidthSnoc(parts: seq<string>, c: string)
    ensures Width(parts + [c]) == Width(parts) + |c| + 1
  {
    if parts == [] {
      assert parts + [c] == [c];
    } else {
      assert (parts + [c])[1..] == parts[1..] + [c];
      WidthSnoc(parts[1..], c);
    }
  }

  lemma {:induction false} PartsWidth(s: string)
    ensures Width(Parts(s)) == |s| + 1
  {
    var n := FirstLength(s);
    if n < |s| {
      PartsWidth(s[n + 1..]);
      assert Parts(s)[1..] == Parts(s[n + 1..]);
    }
  }

  lemma {:induction false} JoinWidth(stack: seq<string>)
    requires stack != []
    ensures |Join(stack)| + 1 == Width(stack)
  {
    var n := |stack| - 1;
    assert stack == stack[..n] + [stack[n]];
    WidthSnoc(stack[..n], stack[n]);
    if n > 0 {
      JoinWidth(stack[..n]);
    }
  }

  lemma PushWidth(rooted: bool, stack: seq<string>, part: string)
    ensures Width(Push(rooted, stack, part)) <= Width(stack) + if part == "" then 0 else |part| + 1
  {
    WidthSnoc(stack, part);
    if stack != [] {
      var n := |stack| - 1;
      assert stack == stack[..n] + [stack[n]];
      WidthSnoc(stack[..n], stack[n]);
    }
  }

  lemma {:induction false} PushAllWidth(rooted: bool, stack: seq<string>, parts: seq<string>)
    ensures Width(PushAll(rooted, stack, parts)) <= Width(stack) + Width(parts)
    ensures parts != [] && parts[0] == "" ==> Width(PushAll(rooted, stack, parts)) + 1 <= Width(stack) + Width(parts)
    decreases |parts|
  {
    if parts != [] {
      PushWidth(rooted, stack, parts[0]);
      PushAllWidth(rooted, Push(rooted, stack, parts[0]), parts[1..]);
    }
  }

  /** A cleaned path is not longer than the path. */
  lemma CleanIsNotLonger(s: string)
    requires s != ""
    ensures 0 < |Clean(s)| <= |s|
  {
    var stack := CleanStack(s);
    PartsWidth(s);
    PushAllWidth(IsRooted(s), [], Parts(s));
    assert IsRooted(s) ==> FirstLength(s) == 0 && Parts(s)[0] == s[..0];
    if stack != [] {
      JoinWidth(stack);
    }
  }

  /** Of all paths that lead to the same place from everywhere, it is a shortest one. */
  lemma CleanIsShortest(s: string, t: string)
    requires t != "" && forall cwd :: IsLocation(cwd) ==> Resolve(cwd, s) == Resolve(cwd, t)
    ensures |Clean(s)| <= |t|
  {
    CleanIsCanonical(s, t);
    CleanIsNotLonger(t);
  }

  /** Cleaning twice is cleaning once. */
  lemma CleanIsIdempotent(s: string)
    ensures Clean(Clean(s)) == Clean(s)
  {
    forall cwd | IsLocation(cwd) ensures Resolve(cwd, Clean(s)) == Resolve(cwd, s) {
      CleanKeepsMeaning(cwd, s);
    }
    CleanIsCanonical(Clean(s), s);
  }
}
