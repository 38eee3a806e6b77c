/** Parts of a file system, and what it means that a change stays inside one. */
module Subtree {

  import opened Collections
  import opened CleanPath
  import opened DeleteTree

  /** Directory `c` is `d` or lies below it. */
  predicate Under(s: Fs, c: nat, d: nat)
    decreases if c <= d then d - c else 0
  {
    c == d || (c in s.dirs && c < d && c < s.dirs[c].parent && Under(s, s.dirs[c].parent, d))
  }

  lemma {:induction false} UnderLess(s: Fs, c: nat, d: nat)
    requires Under(s, c, d)
    ensures c <= d
  {}

  lemma {:induction false} UnderTransitive(s: Fs, x: nat, c: nat, d: nat)
    requires Under(s, x, c) && Under(s, c, d)
    ensures Under(s, x, d)
    decreases if x <= c then c - x else 0
  {
    if x != c {
      UnderLess(s, c, d);
      UnderTransitive(s, s.dirs[x].parent, c, d);
    }
  }

  /** Directory `x` belongs to entry `n` of directory `p`. */
  predicate InPart(s: Fs, x: nat, p: nat, n: string) {
    p in s.dirs && n in s.dirs[p].entries && s.dirs[p].entries[n].DirNode? && Under(s, x, s.dirs[p].entries[n].d)
  }

  /** A child lies below its directory, and never the other way round. */
  lemma ChildUnder(s: Fs, d: nat, n: string, x: nat)
    requires Ok(s) && d in s.dirs && n in s.dirs[d].entries
    ensures InPart(s, x, d, n) ==> Under(s, x, d) && x < d
  {
    assert EntryOk(s, d, n);
    if InPart(s, x, d, n) {
      var c := s.dirs[d].entries[n].d;
      assert Under(s, c, d);
      UnderTransitive(s, x, c, d);
      UnderLess(s, x, c);
    }
  }

  // ---------------------------------------------------------------- shrinking

  ghost predicate Shrunk(a: Dir, b: Dir) {
    b.parent == a.parent && b.name == a.name &&
    forall n :: n in b.entries ==> n in a.entries && b.entries[n] == a.entries[n]
  }

  /** `s'` is `s` without some entries and directories. */
  ghost predicate Shrinks(s: Fs, s': Fs) {
    && s'.root == s.root && s'.cwd == s.cwd
    && forall d {:trigger s'.dirs[d]} :: d in s'.dirs ==> d in s.dirs && Shrunk(s.dirs[d], s'.dirs[d])
  }

  lemma ShrinksTransitive(a: Fs, b: Fs, c: Fs)
    requires Shrinks(a, b) && Shrinks(b, c)
    ensures Shrinks(a, c)
  {
    forall d | d in c.dirs ensures d in a.dirs && Shrunk(a.dirs[d], c.dirs[d]) {
      assert Shrunk(b.dirs[d], c.dirs[d]) && Shrunk(a.dirs[d], b.dirs[d]);
    }
  }

  /** Removing things never makes a path lead elsewhere. */
  lemma {:induction false} WalkShrinks(s: Fs, s': Fs, d: nat, parts: seq<string>)
    requires Shrinks(s, s') && Walk(s', d, parts).Some?
    ensures Walk(s, d, parts) == Walk(s', d, parts)
  {
    if parts != [] {
      var init := parts[..|parts| - 1];
      WalkShrinks(s, s', d, init);
      var w := Walk(s', d, init).value;
      assert Shrunk(s.dirs[w], s'.dirs[w]);
      var r := Walk(s', d, parts).value;
      assert r in s'.dirs && Shrunk(s.dirs[r], s'.dirs[r]);
    } else {
      assert Shrunk(s.dirs[d], s'.dirs[d]);
    }
  }

  lemma DirAtShrinks(s: Fs, s': Fs, path: string)
    requires Shrinks(s, s') && DirAt(s', path).Some?
    ensures DirAt(s, path) == DirAt(s', path)
  {
    WalkShrinks(s, s', Start(s, path), Parts(path));
  }

  /** What is left keeps its place. */
  lemma {:induction false} UnderShrinks(s: Fs, s': Fs, x: nat, d: nat)
    requires Shrinks(s, s') && Ok(s') && x in s'.dirs
    ensures Under(s', x, d) <==> Under(s, x, d)
    decreases if x <= d then d - x else 0
  {
    assert Shrunk(s.dirs[x], s'.dirs[x]);
    assert Attached(s', x);
    if x < d && x < s'.dirs[x].parent {
      UnderShrinks(s, s', s'.dirs[x].parent, d);
    }
  }

  /** Only empty directories are removed, so when one is gone, all below it are. */
  lemma {:induction false} GoneWithSubtree(s: Fs, s': Fs, x: nat, d: nat)
    requires Shrinks(s, s') && Ok(s') && d !in s'.dirs && Under(s, x, d)
    ensures x !in s'.dirs
    decreases if x <= d then d - x else 0
  {
    if x in s'.dirs {
      assert Shrunk(s.dirs[x], s'.dirs[x]) && Attached(s', x);
      GoneWithSubtree(s, s', s.dirs[x].parent, d);
    }
  }

  // ------------------------------------------------------------------- frames

  /** Nothing changed outside directory `d` and what is below it. */
  ghost predicate Kept(s: Fs, s': Fs, d: nat) {
    forall x {:trigger Under(s, x, d)} :: x in s.dirs && !Under(s, x, d) ==> x in s'.dirs && s'.dirs[x] == s.dirs[x]
  }

  ghost predicate SameBut(a: Dir, b: Dir, n: string) {
    b.parent == a.parent && b.name == a.name && b.entries - {n} == a.entries - {n}
  }

  /** Nothing changed outside entry `n` of directory `p` and what is below it. */
  ghost predicate Within(s: Fs, s': Fs, p: nat, n: string) {
    forall x {:trigger InPart(s, x, p, n)} :: x in s.dirs && !InPart(s, x, p, n) ==>
      x in s'.dirs && if x == p then SameBut(s.dirs[p], s'.dirs[p], n) else s'.dirs[x] == s.dirs[x]
  }

  /** Entry `n` of directory `p` has gone with everything below it, and nothing else. */
  ghost predicate Removed(s: Fs, s': Fs, p: nat, n: string) {
    && (forall x :: x in s'.dirs <==> x in s.dirs && !InPart(s, x, p, n))
    && (forall x :: x in s'.dirs ==> s'.dirs[x] == if x == p then s.dirs[x].(entries := s.dirs[x].entries - {n}) else s.dirs[x])
  }

  lemma KeptTransitive(a: Fs, b: Fs, c: Fs, d: nat)
    requires Kept(a, b, d) && Kept(b, c, d) && Shrinks(a, b) && Ok(b)
    ensures Kept(a, c, d)
  {
    forall x | x in a.dirs && !Under(a, x, d) ensures x in c.dirs && c.dirs[x] == a.dirs[x] {
      UnderShrinks(a, b, x, d);
    }
  }

  /** Changes of an entry are changes of its directory. */
  lemma WithinIsKept(s: Fs, s': Fs, d: nat, n: string)
    requires Ok(s) && d in s.dirs && n in s.dirs[d].entries && Within(s, s', d, n)
    ensures Kept(s, s', d) && d in s'.dirs && SameBut(s.dirs[d], s'.dirs[d], n)
  {
    forall x | x in s.dirs && !Under(s, x, d) ensures x in s'.dirs && s'.dirs[x] == s.dirs[x] {
      ChildUnder(s, d, n, x);
      assert !InPart(s, x, d, n);
    }
    ChildUnder(s, d, n, d);
    assert !InPart(s, d, d, n);
  }

  /** Changes below the directory of an entry, and the entry itself, are changes of it. */
  lemma KeptIsWithin(s: Fs, s': Fs, p: nat, n: string, c: nat)
    requires Ok(s) && p in s.dirs && n in s.dirs[p].entries && s.dirs[p].entries[n] == DirNode(c) && Kept(s, s', c)
    ensures Within(s, s', p, n)
  {
    forall x | x in s.dirs && !InPart(s, x, p, n) ensures x in s'.dirs && s'.dirs[x] == s.dirs[x] {
      assert !Under(s, x, c);
    }
  }

  lemma RemovedExactly(s: Fs, s': Fs, p: nat, n: string)
    requires Ok(s) && Ok(s') && Shrinks(s, s') && p in s.dirs && n in s.dirs[p].entries
    requires Within(s, s', p, n) && p in s'.dirs && n !in s'.dirs[p].entries
    requires s.dirs[p].entries[n].DirNode? ==> s.dirs[p].entries[n].d !in s'.dirs
    ensures Removed(s, s', p, n)
  {
    forall x ensures x in s'.dirs <==> x in s.dirs && !InPart(s, x, p, n) {
      if x in s'.dirs {
        assert Shrunk(s.dirs[x], s'.dirs[x]);
        if InPart(s, x, p, n) {
          GoneWithSubtree(s, s', x, s.dirs[p].entries[n].d);
        }
      }
    }
    forall x | x in s'.dirs ensures s'.dirs[x] == if x == p then s.dirs[x].(entries := s.dirs[x].entries - {n}) else s.dirs[x] {
      assert Shrunk(s.dirs[x], s'.dirs[x]);
      assert !InPart(s, x, p, n);
      if x == p {
        assert s'.dirs[p].entries == s'.dirs[p].entries - {n};
      }
    }
  }

  // ----------------------------------------------------------- steady lookups

  /** Looking the path up reads no entry of `c` or of what is below it. */
  ghost predicate Avoids(s: Fs, d: nat, parts: seq<string>, c: nat) {
    parts == [] ||
    var init := parts[..|parts| - 1];
    && Avoids(s, d, init, c)
    && (IsTrivial(parts[|parts| - 1]) || (Walk(s, d, init).Some? && !Under(s, Walk(s, d, init).value, c)))
  }

  /** Such a lookup is not disturbed by changes inside `c`. */
  lemma {:induction false} AvoidsKept(s: Fs, s': Fs, d: nat, parts: seq<string>, c: nat, w: nat)
    requires Kept(s, s', c) && c in s'.dirs && Avoids(s, d, parts, c)
    requires Walk(s, d, parts) == Some(w) && (w == c || !Under(s, w, c))
    ensures Walk(s', d, parts) == Some(w)
  {
    if parts != [] {
      var init, last := parts[..|parts| - 1], parts[|parts| - 1];
      AvoidsKept(s, s', d, init, c, Walk(s, d, init).value);
    }
  }

  lemma {:induction false} AvoidsKept'(s: Fs, s': Fs, d: nat, parts: seq<string>, c: nat, w: nat)
    requires Kept(s, s', c) && c in s'.dirs && Avoids(s, d, parts, c) && Shrinks(s, s') && Ok(s')
    requires Walk(s, d, parts) == Some(w) && (w == c || !Under(s, w, c))
    ensures Avoids(s', d, parts, c)
  {
    if parts != [] {
      var init, last := parts[..|parts| - 1], parts[|parts| - 1];
      var v := Walk(s, d, init).value;
      AvoidsKept'(s, s', d, init, c, v);
      AvoidsKept(s, s', d, init, c, v);
      if !IsTrivial(last) {
        UnderShrinks(s, s', v, c);
      }
    }
  }

  /** A lookup that avoids a directory avoids its entries. */
  lemma {:induction false} AvoidsChild(s: Fs, d: nat, parts: seq<string>, c: nat, n: string)
    requires Ok(s) && c in s.dirs && n in s.dirs[c].entries && s.dirs[c].entries[n].DirNode?
    requires Avoids(s, d, parts, c)
    ensures Avoids(s, d, parts, s.dirs[c].entries[n].d)
  {
    if parts != [] {
      var init := parts[..|parts| - 1];
      AvoidsChild(s, d, init, c, n);
      if !IsTrivial(parts[|parts| - 1]) {
        ChildUnder(s, c, n, Walk(s, d, init).value);
      }
    }
  }
}
