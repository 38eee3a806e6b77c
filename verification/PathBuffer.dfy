/** The shared path buffer of the directory lister and deleter (class `PathBuffer` of
    runtime/bin/directory_linux.cc): a fixed array of characters holding a
    NUL-terminated string that is extended and cut back in place. */
module PathBuffer {

  const PATH_MAX := 4096

  /** The C string at the start of `s`. */
  function CString(s: seq<char>): (r: string)
    ensures |r| <= |s| && r == s[..|r|] && '\0' !in r
  {
    if s == [] || s[0] == '\0' then [] else [s[0]] + CString(s[1..])
  }

  lemma {:induction false} CStringEnds(s: seq<char>, n: nat)
    requires n < |s| && s[n] == '\0' && '\0' !in s[..n]
    ensures CString(s) == s[..n]
  {
    if n > 0 {
      assert s[0] in s[..n];
      assert s[1..][..n - 1] == s[..n][1..];
      CStringEnds(s[1..], n - 1);
    }
  }

  lemma {:induction false} CStringBound(s: seq<char>, n: nat)
    requires n < |s| && s[n] == '\0'
    ensures |CString(s)| <= n
  {
    if n > 0 && s[0] != '\0' {
      CStringBound(s[1..], n - 1);
    }
  }

  /** What the buffer can show of a path: at most one character less than its size. */
  function Shown(path: string): string {
    if |path| < PATH_MAX then path else path[..PATH_MAX - 1]
  }

  class PathBuffer {
    const data: array<char>
    var length: nat

    ghost predicate Valid()
      reads this, data
    {
      && data.Length == PATH_MAX + 1 && length <= PATH_MAX
      && data[PATH_MAX] == '\0' && data[PATH_MAX - 1] == '\0'
    }

    /** The buffer starts with what it can show of `text`. */
    ghost predicate Holds(text: string)
      reads this, data
    {
      Valid() && |text| <= PATH_MAX && '\0' !in text && data[..|Shown(text)|] == Shown(text)
    }

    function AsString(): string
      reads data
    {
      CString(data[..])
    }

    constructor ()
      ensures Holds("") && length == 0 && AsString() == "" && fresh(data)
    {
      data := new char[PATH_MAX + 1](_ => '\0');
      length := 0;
    }

    /** The `snprintf` of `Add`: as much of `name` as fits in `size` bytes with its NUL. */
    method Print(name: string, size: nat)
      requires Valid() && length + size == PATH_MAX
      modifies data
      ensures Valid() && data[..length] == old(data[..length])
      ensures size > 0 ==> var n := if |name| < size then |name| else size - 1;
                           data[length..length + n] == name[..n] && data[length + n] == '\0'
    {
      if size > 0 {
        var n := if |name| < size then |name| else size - 1;
        for i := 0 to n
          invariant Valid() && data[..length] == old(data[..length])
          invariant data[length..length + i] == name[..i]
        {
          data[length + i] := name[i];
        }
        data[length + n] := '\0';
      }
      data[PATH_MAX] := '\0';
    }

    /** Appends a name to a buffer that holds `prefix`. The length grows exactly when
        both fit in PATH_MAX characters, but the string shows them all only when one
        more would fit. */
    method Add(name: string, ghost prefix: string) returns (ok: bool)
      requires Holds(prefix) && length == |prefix| && '\0' !in name
      modifies this, data
      ensures Holds(prefix) && (ok ==> Holds(prefix + name))
      ensures ok <==> |prefix| + |name| <= PATH_MAX
      ensures length == if ok then |prefix| + |name| else |prefix|
      ensures AsString() == Shown(prefix + name)
      ensures ok ==> (AsString() == prefix + name <==> |prefix| + |name| != PATH_MAX)
    {
      ghost var shown := Shown(prefix + name);
      Print(name, PATH_MAX - length);
      ghost var n := |shown| - |Shown(prefix)|;
      assert data[..|Shown(prefix)|] == Shown(prefix);
      assert shown == Shown(prefix) + name[..n];
      assert data[..][..|shown|] == shown;
      CStringEnds(data[..], |shown|);
      var written := |name|;
      if written <= PATH_MAX - length && written == (if |name| < PATH_MAX + 1 then |name| else PATH_MAX + 1) {
        length := length + written;
        return true;
      } else {
        return false;
      }
    }

    method Reset(newLength: nat, ghost text: string)
      requires Holds(text) && newLength == |text|
      modifies this, data
      ensures Holds(text) && length == newLength && AsString() == Shown(text)
    {
      length := newLength;
      data[length] := '\0';
      CStringEnds(data[..], |Shown(text)|);
    }

    /** The buffer never shows PATH_MAX characters or more. */
    lemma AlwaysShort()
      requires Valid()
      ensures |AsString()| < PATH_MAX
    {
      CStringBound(data[..], PATH_MAX - 1);
    }

    /** A buffer that holds a text holds every prefix of it. */
    lemma HoldsPrefix(text: string, n: nat)
      requires Holds(text) && n <= |text|
      ensures Holds(text[..n])
    {
      var k := |Shown(text[..n])|;
      assert Shown(text[..n]) == Shown(text)[..k];
      assert data[..k] == data[..|Shown(text)|][..k];
    }
  }
}
