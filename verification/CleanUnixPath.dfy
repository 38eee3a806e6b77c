/** The in-place scanner of `File::CleanUnixPath` (runtime/bin/file.cc), proved to write
    `CleanPath.Clean` of its input and to stay inside both buffers. */
module CleanUnixPath {

  import opened FileSystem
  import opened CleanPath

  /** Reading a C string, up to and including its terminator. */
  function At(s: string, i: nat): char
    requires i <= |s|
  {
    if i < |s| then s[i] else '\0'
  }

  predicate IsSeparator(c: char) {
    c == '/' || c == '\0'
  }

  lemma FirstLengthIs(s: string, n: nat)
    requires n <= |s| && '/' !in s[..n] && (n < |s| ==> s[n] == '/')
    ensures FirstLength(s) == n
  {
    FirstLengthAppend(s[..n], s[n..]);
    assert s == s[..n] + s[n..];
  }

  lemma PartsAt(s: string, i: nat, j: nat)
    requires i <= j <= |s| && '/' !in s[i..j] && (j < |s| ==> s[j] == '/')
    ensures Parts(s[i..]) == if j < |s| then [s[i..j]] + Parts(s[j + 1..]) else [s[i..j]]
  {
    var t := s[i..];
    assert t[..j - i] == s[i..j];
    FirstLengthIs(t, j - i);
    if j < |s| {
      assert t[j - i + 1..] == s[j + 1..];
    } else {
      assert t == s[i..j];
    }
  }

  lemma PushCons(rooted: bool, stack: seq<string>, part: string, rest: seq<string>)
    ensures PushAll(rooted, stack, [part] + rest) == PushAll(rooted, Push(rooted, stack, part), rest)
  {
    assert ([part] + rest)[1..] == rest;
  }

  /** Consuming the component `s[i..j]` and stopping at its separator. */
  lemma Consume(rooted: bool, stack: seq<string>, s: string, i: nat, j: nat)
    requires i <= j <= |s| && '/' !in s[i..j] && (j < |s| ==> s[j] == '/')
    ensures PushAll(rooted, stack, Parts(s[i..])) == PushAll(rooted, Push(rooted, stack, s[i..j]), Parts(s[j..]))
  {
    var stack' := Push(rooted, stack, s[i..j]);
    PartsAt(s, i, j);
    PartsAt(s, j, j);
    assert s[j..j] == "" && Push(rooted, stack', "") == stack';
    if j < |s| {
      PushCons(rooted, stack, s[i..j], Parts(s[j + 1..]));
      PushCons(rooted, stack', "", Parts(s[j + 1..]));
    } else {
      PushCons(rooted, stack, s[i..j], []);
      PushCons(rooted, stack', "", []);
      assert [s[i..j]] + [] == [s[i..j]] && [""] + [] == [""];
    }
  }

  lemma SkipSlash(rooted: bool, stack: seq<string>, s: string, i: nat)
    requires i < |s| && s[i] == '/'
    ensures PushAll(rooted, stack, Parts(s[i..])) == PushAll(rooted, stack, Parts(s[i + 1..]))
  {
    PartsAt(s, i, i);
    assert s[i..i] == "";
    PushCons(rooted, stack, "", Parts(s[i + 1..]));
  }

  lemma TextSnoc(rooted: bool, stack: seq<string>, c: string)
    ensures Text(rooted, stack + [c]) == Text(rooted, stack) + (if stack == [] then "" else "/") + c
  {
    assert (stack + [c])[..|stack|] == stack;
  }

  lemma {:induction false} TextGrows(rooted: bool, stack: seq<string>, k: nat)
    requires k <= |stack|
    ensures |Text(rooted, stack[..k])| <= |Text(rooted, stack)|
  {
    if k < |stack| {
      var n := |stack| - 1;
      TextGrows(rooted, stack[..n], k);
      assert stack[..n][..k] == stack[..k] && stack == stack[..n] + [stack[n]];
      TextSnoc(rooted, stack[..n], stack[n]);
    } else {
      assert stack[..k] == stack;
    }
  }

  /** What is still to be read turns `stack` into the cleaned components. */
  ghost predicate Rest(input: string, i: nat, stack: seq<string>)
    requires i <= |input|
  {
    PushAll(IsRooted(input), stack, Parts(input[i..])) == CleanStack(input)
  }

  lemma RestAfter(input: string, i: nat, j: nat, stack: seq<string>)
    requires '\0' !in input && i <= j <= |input| && Rest(input, i, stack)
    requires '/' !in input[i..j] && IsSeparator(At(input, j))
    ensures Rest(input, j, Push(IsRooted(input), stack, input[i..j]))
  {
    assert j < |input| ==> input[j] in input;
    Consume(IsRooted(input), stack, input, i, j);
  }

  /** There is room for what has been read and a terminator; before the first check, a
      tiny buffer may be full already. */
  predicate HasRoom(input: string, out: seq<char>, inIndex: nat, stack: seq<string>) {
    inIndex < |out| || (inIndex == |out| && stack == [] && inIndex < |input|)
  }

  /** What the scanner's variables mean: `stack` is the output so far, `k` its leading
      dot-dots. */
  ghost predicate Scanning(input: string, out: seq<char>, inIndex: nat, outIndex: nat, dotdot: nat, stack: seq<string>, k: nat) {
    var rooted := IsRooted(input);
    && inIndex <= |input| && outIndex <= inIndex && HasRoom(input, out, inIndex, stack)
    && IsClean(rooted, stack, k)
    && out[..outIndex] == Text(rooted, stack) && dotdot == |Text(rooted, stack[..k])|
    && Rest(input, inIndex, stack)
    && (stack != [] ==> outIndex < inIndex || IsSeparator(At(input, inIndex)))
  }

  /** Rule 3: backs up over the last component. */
  method PopComponent(out: array<char>, outIndex: nat, dotdot: nat, ghost rooted: bool, ghost stack: seq<string>, ghost k: nat)
    returns (newIndex: nat)
    requires IsClean(rooted, stack, k) && k < |stack| && outIndex <= out.Length
    requires out[..outIndex] == Text(rooted, stack) && dotdot == |Text(rooted, stack[..k])|
    ensures newIndex < outIndex && out[..newIndex] == Text(rooted, stack[..|stack| - 1])
  {
    ghost var init, last := stack[..|stack| - 1], stack[|stack| - 1];
    ghost var m := |Text(rooted, init)|;
    assert stack == init + [last] && init[..k] == stack[..k];
    TextSnoc(rooted, init, last);
    TextGrows(rooted, init, k);
    ghost var start := outIndex - |last|;
    assert forall i :: start <= i < outIndex ==> out[i] == last[i - start];
    assert forall i :: 0 <= i < |last| ==> last[i] in last;
    newIndex := outIndex - 1;
    while newIndex > dotdot && out[newIndex] != '/'
      invariant m <= newIndex < outIndex
    {
      newIndex := newIndex - 1;
    }
    assert newIndex == m;
  }

  /** Rule 5: a dot-dot at the start of an unrooted path stays. */
  method PushDotDot(out: array<char>, outIndex: nat, ghost stack: seq<string>) returns (newIndex: nat)
    requires outIndex + (if stack == [] then 2 else 3) <= out.Length
    requires out[..outIndex] == Text(false, stack) && (stack != [] <==> outIndex > 0)
    modifies out
    ensures newIndex == outIndex + (if stack == [] then 2 else 3) && newIndex <= out.Length
    ensures out[..newIndex] == Text(false, stack + [".."])
  {
    TextSnoc(false, stack, "..");
    newIndex := outIndex;
    if newIndex > 0 {
      out[newIndex] := '/';
      newIndex := newIndex + 1;
    }
    out[newIndex] := '.';
    out[newIndex + 1] := '.';
    newIndex := newIndex + 2;
  }

  /** Copies a normal component; fails if the input does not fit. */
  method CopyComponent(input: string, out: array<char>, inIndex: nat, outIndex: nat)
    returns (ok: bool, i: nat, o: nat)
    requires '\0' !in input && inIndex < |input| && inIndex <= out.Length && outIndex <= inIndex
    requires !IsSeparator(At(input, inIndex))
    modifies out
    ensures inIndex <= i <= |input| && '/' !in input[inIndex..i]
    ensures !ok ==> |input| >= out.Length
    ensures ok ==> i < out.Length && o == outIndex + i - inIndex && IsSeparator(At(input, i))
    ensures ok ==> out[..o] == old(out[..outIndex]) + input[inIndex..i]
  {
    i, o := inIndex, outIndex;
    while !IsSeparator(At(input, i))
      invariant inIndex <= i <= |input| && (i < out.Length || i == inIndex) && o == outIndex + i - inIndex
      invariant '/' !in input[inIndex..i]
      invariant out[..o] == old(out[..outIndex]) + input[inIndex..i]
      decreases |input| - i
    {
      if i + 1 >= out.Length {
        return false, i, o;
      }
      assert input[inIndex..i + 1] == input[inIndex..i] + [input[i]];
      out[o] := input[i];
      i, o := i + 1, o + 1;
    }
    return true, i, o;
  }

  lemma TextEmpty(rooted: bool, stack: seq<string>, k: nat)
    requires IsClean(rooted, stack, k)
    ensures stack == [] <==> |Text(rooted, stack)| == if rooted then 1 else 0
  {
    if stack != [] { JoinStart(stack); }
  }

  /** Appending a name to the output keeps the meaning of the variables. */
  lemma NameTaken(input: string, out: seq<char>, out': seq<char>, inIndex: nat, outIndex: nat, dotdot: nat,
                  stack: seq<string>, k: nat, i: nat, o: nat)
    requires Scanning(input, out, inIndex, outIndex, dotdot, stack, k)
    requires inIndex < i <= |input| && i < |out'| && o <= i && IsSeparator(At(input, i)) && '\0' !in input
    requires IsName(input[inIndex..i]) && o <= |out'|
    requires out'[..o] == out[..outIndex] + (if stack == [] then "" else "/") + input[inIndex..i]
    ensures Scanning(input, out', i, o, dotdot, stack + [input[inIndex..i]], k)
  {
    var name := input[inIndex..i];
    RestAfter(input, inIndex, i, stack);
    TextSnoc(IsRooted(input), stack, name);
    CleanSnoc(IsRooted(input), stack, k, name);
  }

  lemma CleanSnoc(rooted: bool, stack: seq<string>, k: nat, name: string)
    requires IsClean(rooted, stack, k) && IsName(name)
    ensures IsClean(rooted, stack + [name], k) && (stack + [name])[..k] == stack[..k]
  {}

  /** The branch for a normal component. */
  method TakeName(input: string, out: array<char>, inIndex: nat, outIndex: nat, ghost dotdot: nat, ghost stack: seq<string>, ghost k: nat)
    returns (ok: bool, i: nat, o: nat, ghost stack': seq<string>)
    requires '\0' !in input && Scanning(input, out[..], inIndex, outIndex, dotdot, stack, k)
    requires inIndex < |input| && input[inIndex] != '/'
    requires !(input[inIndex] == '.' && IsSeparator(At(input, inIndex + 1)))
    requires !(input[inIndex] == '.' && At(input, inIndex + 1) == '.' && IsSeparator(At(input, inIndex + 2)))
    modifies out
    ensures !ok ==> |input| >= out.Length
    ensures ok ==> i > inIndex && Scanning(input, out[..], i, o, dotdot, stack', k)
  {
    var rooted := IsRooted(input);
    o := outIndex;
    if (rooted && o != 1) || (!rooted && o != 0) {
      out[o] := '/';
      o := o + 1;
    }
    TextEmpty(rooted, stack, k);
    ghost var o0 := o;
    assert out[..o0] == old(out[..outIndex]) + (if stack == [] then "" else "/");
    ok, i, o := CopyComponent(input, out, inIndex, o);
    ghost var name := input[inIndex..i];
    stack' := stack + [name];
    if ok {
      NotDots(input, inIndex, i);
      NameTaken(input, old(out[..]), out[..], inIndex, outIndex, dotdot, stack, k, i, o);
    }
  }

  lemma NotDots(s: string, i: nat, j: nat)
    requires i < |s| && i <= j <= |s| && '\0' !in s && '/' !in s[i..j] && IsSeparator(At(s, j)) && s[i] != '/'
    requires !(s[i] == '.' && IsSeparator(At(s, i + 1)))
    requires !(s[i] == '.' && At(s, i + 1) == '.' && IsSeparator(At(s, i + 2)))
    ensures i < j && IsName(s[i..j])
  {
    assert s[i] in s;
  }

  /** Whether there is a component to eliminate can be read off the indices. */
  lemma {:induction false} BeyondDotDot(rooted: bool, stack: seq<string>, k: nat)
    requires IsClean(rooted, stack, k)
    ensures |stack| > k <==> |Text(rooted, stack)| > |Text(rooted, stack[..k])|
  {
    if |stack| > k {
      var n := |stack| - 1;
      assert stack == stack[..n] + [stack[n]] && stack[..n][..k] == stack[..k];
      TextSnoc(rooted, stack[..n], stack[n]);
      TextGrows(rooted, stack[..n], k);
    } else {
      assert stack[..k] == stack;
    }
  }

  /** A dot-dot that changes the stack to `stack'`. */
  lemma DotDotTaken(input: string, out: seq<char>, out': seq<char>, inIndex: nat, outIndex: nat, dotdot: nat,
                    stack: seq<string>, k: nat, o: nat, stack': seq<string>, k': nat)
    requires Scanning(input, out, inIndex, outIndex, dotdot, stack, k)
    requires inIndex + 2 <= |input| && inIndex + 2 < |out'| && '\0' !in input
    requires input[inIndex..inIndex + 2] == ".." && IsSeparator(At(input, inIndex + 2))
    requires stack' == Push(IsRooted(input), stack, "..") && IsClean(IsRooted(input), stack', k')
    requires o <= inIndex + 2 && out'[..o] == Text(IsRooted(input), stack')
    ensures Scanning(input, out', inIndex + 2, o, |Text(IsRooted(input), stack'[..k'])|, stack', k')
  {
    RestAfter(input, inIndex, inIndex + 2, stack);
  }

  lemma Dots(s: string, i: nat, n: nat)
    requires 1 <= n <= 2 && i + n <= |s| && s[i] == '.' && s[i + n - 1] == '.'
    ensures s[i..i + n] == if n == 1 then "." else ".."
  {}

  /** Rules 3, 4 and 5: the parent directory. */
  method TakeDotDot(input: string, out: array<char>, inIndex: nat, outIndex: nat, dotdot: nat, ghost stack: seq<string>, ghost k: nat)
    returns (o: nat, d: nat, ghost stack': seq<string>, ghost k': nat)
    requires '\0' !in input && Scanning(input, out[..], inIndex, outIndex, dotdot, stack, k)
    requires inIndex + 2 <= |input| && inIndex + 2 < out.Length
    requires input[inIndex] == '.' && input[inIndex + 1] == '.' && IsSeparator(At(input, inIndex + 2))
    modifies out
    ensures Scanning(input, out[..], inIndex + 2, o, d, stack', k')
  {
    var rooted := IsRooted(input);
    ghost var was := out[..];
    Dots(input, inIndex, 2);
    stack' := Push(rooted, stack, "..");
    k' := PushIsClean(rooted, stack, k, "..");
    BeyondDotDot(rooted, stack, k);
    if outIndex > dotdot {
      assert IsName(stack[|stack| - 1]);
      o := PopComponent(out, outIndex, dotdot, rooted, stack, k);
      d := dotdot;
      assert stack'[..k'] == stack[..k];
      DotDotTaken(input, was, out[..], inIndex, outIndex, dotdot, stack, k, o, stack', k');
    } else if rooted {
      // Nothing is above the root.
      o, d := outIndex, dotdot;
      DotDotTaken(input, was, out[..], inIndex, outIndex, dotdot, stack, k, o, stack', k');
    } else {
      TextEmpty(rooted, stack, k);
      o := PushDotDot(out, outIndex, stack);
      d := o;
      assert stack'[..k'] == stack';
      DotDotTaken(input, was, out[..], inIndex, outIndex, dotdot, stack, k, o, stack', k');
    }
  }

  /** Rule 1: reduces multiple slashes to a single slash. */
  method TakeSlash(input: string, out: array<char>, inIndex: nat, outIndex: nat, dotdot: nat, ghost stack: seq<string>, ghost k: nat)
    returns (ok: bool, i: nat)
    requires Scanning(input, out[..], inIndex, outIndex, dotdot, stack, k) && inIndex < |input| && input[inIndex] == '/'
    ensures !ok ==> |input| >= out.Length
    ensures ok ==> i == inIndex + 1 && Scanning(input, out[..], i, outIndex, dotdot, stack, k)
  {
    SkipSlash(IsRooted(input), stack, input, inIndex);
    i := inIndex + 1;
    ok := i < out.Length;
  }

  /** Rule 2: eliminates the current directory. */
  method TakeDot(input: string, out: array<char>, inIndex: nat, outIndex: nat, dotdot: nat, ghost stack: seq<string>, ghost k: nat)
    returns (ok: bool, i: nat)
    requires '\0' !in input && Scanning(input, out[..], inIndex, outIndex, dotdot, stack, k)
    requires inIndex < |input| && input[inIndex] == '.' && IsSeparator(At(input, inIndex + 1))
    ensures !ok ==> |input| >= out.Length
    ensures ok ==> i == inIndex + 1 && Scanning(input, out[..], i, outIndex, dotdot, stack, k)
  {
    Dots(input, inIndex, 1);
    RestAfter(input, inIndex, inIndex + 1, stack);
    i := inIndex + 1;
    ok := i < out.Length;
  }

  /** One turn of the scanner's loop. */
  method TakeComponent(input: string, out: array<char>, inIndex: nat, outIndex: nat, dotdot: nat, ghost stack: seq<string>, ghost k: nat)
    returns (ok: bool, i: nat, o: nat, d: nat, ghost stack': seq<string>, ghost k': nat)
    requires '\0' !in input && Scanning(input, out[..], inIndex, outIndex, dotdot, stack, k) && inIndex < |input|
    modifies out
    ensures !ok ==> |input| >= out.Length
    ensures ok ==> i > inIndex && Scanning(input, out[..], i, o, d, stack', k')
  {
    o, d, stack', k' := outIndex, dotdot, stack, k;
    if input[inIndex] == '/' {
      ok, i := TakeSlash(input, out, inIndex, outIndex, dotdot, stack, k);
    } else if input[inIndex] == '.' && IsSeparator(At(input, inIndex + 1)) {
      ok, i := TakeDot(input, out, inIndex, outIndex, dotdot, stack, k);
    } else if input[inIndex] == '.' && At(input, inIndex + 1) == '.' && IsSeparator(At(input, inIndex + 2)) {
      i := inIndex + 2;
      ok := i < out.Length;
      if ok {
        o, d, stack', k' := TakeDotDot(input, out, inIndex, outIndex, dotdot, stack, k);
      }
    } else {
      ok, i, o, stack' := TakeName(input, out, inIndex, outIndex, dotdot, stack, k);
    }
  }

  /** The `snprintf` of a single dot. */
  method PrintDot(out: array<char>)
    modifies out
    ensures out.Length >= 2 ==> out[..1] == "." && out[1] == '\0'
  {
    if out.Length >= 2 {
      out[0], out[1] := '.', '\0';
    } else if out.Length == 1 {
      out[0] := '\0';
    }
  }

  /** A rooted path writes its slash, and the root its terminator, without a check. */
  predicate Safe(input: string, outLength: nat) {
    IsRooted(input) ==> outLength >= if input == "/" then 2 else 1
  }

  /** Fails exactly when a non-empty input and its terminator do not fit in the output.
      Otherwise it answers the length of the cleaned path, never longer than a non-empty
      input, and writes the path exactly when the output has two characters or more. */
  method CleanUnixPath(input: string, out: array<char>) returns (n: int)
    requires '\0' !in input && Safe(input, out.Length)
    modifies out
    ensures n == -1 <==> input != "" && |input| >= out.Length
    ensures n != -1 ==> n == |Clean(input)| && (input != "" ==> n <= |input|)
    ensures n != -1 ==> (n < out.Length && out[..n] == Clean(input) && out[n] == '\0' <==> out.Length >= 2)
  {
    if At(input, 0) == '\0' {
      assert input == "";
      PartsPlain("");
      assert PushAll(false, [], [""]) == [] by { PushCons(false, [], "", []); assert [""] + [] == [""]; }
      PrintDot(out);
      return 1;
    }
    var rooted := input[0] == '/';
    var inIndex: nat, outIndex: nat := 0, 0;
    if rooted {
      out[0] := '/';
      inIndex, outIndex := 1, 1;
      SkipSlash(true, [], input, 0);
    }
    assert input[0..] == input;
    var dotdot: nat := outIndex;
    ghost var stack, k: nat := [], 0;
    while At(input, inIndex) != '\0'
      invariant Scanning(input, out[..], inIndex, outIndex, dotdot, stack, k)
      decreases |input| - inIndex
    {
      var ok;
      ok, inIndex, outIndex, dotdot, stack, k := TakeComponent(input, out, inIndex, outIndex, dotdot, stack, k);
      if !ok {
        return -1;
      }
    }
    Finished(input, out[..], inIndex, outIndex, dotdot, stack, k);
    if outIndex == 0 {
      PrintDot(out);
      return 1;
    }
    out[outIndex] := '\0';
    return outIndex;
  }

  lemma AtEnd(s: string, i: nat)
    requires '\0' !in s && i <= |s|
    ensures At(s, i) == '\0' <==> i == |s|
  {
    assert i < |s| ==> s[i] in s;
  }

  lemma Finished(input: string, out: seq<char>, inIndex: nat, outIndex: nat, dotdot: nat, stack: seq<string>, k: nat)
    requires Scanning(input, out, inIndex, outIndex, dotdot, stack, k) && At(input, inIndex) == '\0' && '\0' !in input
    ensures inIndex == |input|
    ensures Clean(input) == if outIndex == 0 then "." else out[..outIndex]
  {
    AtEnd(input, inIndex);
    assert input[inIndex..] == "";
    PartsPlain("");
    PushCons(IsRooted(input), stack, "", []);
    assert [""] + [] == [""];
  }
}
