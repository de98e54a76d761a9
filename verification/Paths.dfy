/**
 Paths of the decoy filesystem. A normalized path is the sequence of its components;
 the root directory is the empty sequence.
 */
module Paths {
  import opened Text

  type Path = seq<string>

  /** A name that a normalized path may contain. */
  predicate IsComponent(c: string) {
    c != "" && c != "." && c != ".." && '/' !in c && '\0' !in c
  }

  predicate Canonical(p: Path) {
    forall i :: 0 <= i < |p| ==> IsComponent(p[i])
  }

  function Parent(p: Path): Path {
    if p == [] then [] else p[..|p| - 1]
  }

  /** The string form of a normalized path: components each after a slash, or a lone slash. */
  function Render(p: Path): string {
    if p == [] then "/" else "/" + Join(p, '/')
  }

  function WithoutNul(s: string): (r: string)
    ensures '\0' !in r
  {
    if s == "" then ""
    else if s[0] == '\0' then WithoutNul(s[1..])
    else [s[0]] + WithoutNul(s[1..])
  }

  /** The components reached from directory `at` by following `parts`. */
  function Follow(at: Path, parts: seq<string>): Path
    decreases |parts|
  {
    if parts == [] then
      at
    else
      var next :=
        if parts[0] == "" || parts[0] == "." then at
        else if parts[0] == ".." then Parent(at)
        else at + [parts[0]];
      Follow(next, parts[1..])
  }

  function Normalize(path: string): Path {
    Follow([], Split(WithoutNul(path), '/'))
  }

  method NormalizePath(path: string) returns (result: Path)
    ensures result == Normalize(path)
  {
    var clean := WithoutNul(path);
    var parts := Split(clean, '/');
    result := [];
    for i := 0 to |parts|
      invariant Follow(result, parts[i..]) == Follow([], parts)
    {
      var p := parts[i];
      assert parts[i..][1..] == parts[i + 1..];
      if p == "" || p == "." {
        continue;
      } else if p == ".." {
        if result != [] {
          result := result[..|result| - 1];
        }
      } else {
        result := result + [p];
      }
    }
  }

  lemma {:induction false} FollowCanonical(at: Path, parts: seq<string>)
    requires Canonical(at)
    requires forall i :: 0 <= i < |parts| ==> '/' !in parts[i] && '\0' !in parts[i]
    ensures Canonical(Follow(at, parts))
    decreases |parts|
  {
    if parts != [] {
      var next :=
        if parts[0] == "" || parts[0] == "." then at
        else if parts[0] == ".." then Parent(at)
        else at + [parts[0]];
      FollowCanonical(next, parts[1..]);
    }
  }

  lemma {:induction false} SplitChars(s: string, sep: char, c: char)
    requires c !in s
    ensures forall i :: 0 <= i < |Split(s, sep)| ==> c !in Split(s, sep)[i]
  {
    if s != "" {
      SplitChars(s[1..], sep, c);
    }
  }

  /** Whatever string a client sends, its normal form is canonical: no dots, no empty names. */
  lemma NormalizeCanonical(path: string)
    ensures Canonical(Normalize(path))
  {
    SplitChars(WithoutNul(path), '/', '\0');
    FollowCanonical([], Split(WithoutNul(path), '/'));
  }

  lemma {:induction false} WithoutNulSame(s: string)
    requires '\0' !in s
    ensures WithoutNul(s) == s
  {
    if s != "" {
      WithoutNulSame(s[1..]);
    }
  }

  lemma {:induction false} FollowComponents(at: Path, p: Path)
    requires Canonical(p)
    ensures Follow(at, p) == at + p
    decreases |p|
  {
    if p != [] {
      FollowComponents(at + [p[0]], p[1..]);
      assert at + [p[0]] + p[1..] == at + p;
    }
  }

  lemma {:induction false} JoinChars(p: Path, c: char)
    requires c != '/' && forall i :: 0 <= i < |p| ==> c !in p[i]
    ensures c !in Join(p, '/')
  {
    if |p| > 1 {
      JoinChars(p[1..], c);
    }
  }

  /**
   Normalizing the string form of a canonical path gives the path back. Hence normalizing
   twice is normalizing once, and two canonical paths with equal strings are equal, so a set
   of path strings can stand for a set of component sequences.
   */
  lemma NormalizeRender(p: Path)
    requires Canonical(p)
    ensures Normalize(Render(p)) == p
  {
    if p == [] {
      assert Split("/", '/') == [""] + Split("", '/');
    } else {
      JoinChars(p, '\0');
      WithoutNulSame(Render(p));
      SplitFirst("", Join(p, '/'), '/');
      assert Render(p) == "" + ['/'] + Join(p, '/');
      SplitJoin(p, '/');
      assert ([""] + p)[1..] == p;
      FollowComponents([], p);
    }
  }

  lemma NormalizeIdempotent(path: string)
    ensures Normalize(Render(Normalize(path))) == Normalize(path)
  {
    NormalizeCanonical(path);
    NormalizeRender(Normalize(path));
  }

  // ----- What a path string means, piece by piece -----

  lemma {:induction false} WithoutNulConcat(a: string, b: string)
    ensures WithoutNul(a + b) == WithoutNul(a) + WithoutNul(b)
  {
    if a == "" {
      assert a + b == b;
    } else {
      hide WithoutNul;
      WithoutNulConcat(a[1..], b);
      WithoutNulFirst(a);
      WithoutNulFirst(a + b);
      RestOfConcat(a, b);
      Associate([a[0]], WithoutNul(a[1..]), WithoutNul(b));
    }
  }

  lemma WithoutNulFirst(s: string)
    requires s != ""
    ensures WithoutNul(s) == if s[0] == '\0' then WithoutNul(s[1..]) else [s[0]] + WithoutNul(s[1..])
  {
  }

  lemma {:induction false} FollowConcat(at: Path, a: seq<string>, b: seq<string>)
    ensures Follow(at, a + b) == Follow(Follow(at, a), b)
    decreases |a|
  {
    if a == [] {
      assert a + b == b;
    } else {
      var next :=
        if a[0] == "" || a[0] == "." then at
        else if a[0] == ".." then Parent(at)
        else at + [a[0]];
      assert (a + b)[1..] == a[1..] + b && (a + b)[0] == a[0];
      FollowConcat(next, a[1..], b);
    }
  }

  lemma FollowOne(at: Path, piece: string)
    ensures Follow(at, [piece]) == if piece == "" || piece == "." then at
                                   else if piece == ".." then (if at == [] then [] else at[..|at| - 1])
                                   else at + [piece]
  {
    assert [piece][1..] == [];
  }

  /** A piece more after a slash leads on from where the path led. */
  lemma NormalizePiece(s: string, piece: string)
    requires '/' !in piece && '\0' !in piece
    ensures Normalize(s + "/" + piece) == Follow(Normalize(s), [piece])
    ensures Normalize(piece) == Follow([], [piece])
  {
    WithoutNulConcat(s + "/", piece);
    WithoutNulConcat(s, "/");
    WithoutNulSame("/");
    WithoutNulSame(piece);
    SplitLast(WithoutNul(s), piece, '/');
    SplitWhole(piece, '/');
    FollowConcat([], Split(WithoutNul(s), '/'), [piece]);
  }

  /** Two dots go one component back, and nowhere from the root. */
  lemma NormalizeDotDot(s: string)
    ensures var p := Normalize(s); Normalize(s + "/..") == if p == [] then [] else p[..|p| - 1]
    ensures Normalize("..") == []
  {
    NormalizePiece(s, "..");
    assert s + "/" + ".." == s + "/..";
    FollowOne(Normalize(s), "..");
    FollowOne([], "..");
  }

  /** A dot, or nothing, after a slash changes nothing. */
  lemma NormalizeDot(s: string)
    ensures Normalize(s + "/.") == Normalize(s) && Normalize(s + "/") == Normalize(s)
    ensures Normalize(".") == [] && Normalize("") == []
  {
    NormalizePiece(s, ".");
    NormalizePiece(s, "");
    assert s + "/" + "" == s + "/" && s + "/" + "." == s + "/.";
    FollowOne(Normalize(s), ".");
    FollowOne(Normalize(s), "");
    FollowOne([], ".");
    FollowOne([], "");
  }

  /** Any other name is one component more. */
  lemma NormalizeChild(s: string, c: string)
    requires IsComponent(c)
    ensures Normalize(s + "/" + c) == Normalize(s) + [c] && Normalize(c) == [c]
  {
    NormalizePiece(s, c);
    FollowOne(Normalize(s), c);
    FollowOne([], c);
  }

  /** A NUL anywhere is as if it were not there. */
  lemma NormalizeNul(a: string, b: string)
    ensures Normalize(a + "\0" + b) == Normalize(a + b)
  {
    WithoutNulConcat(a + "\0", b);
    WithoutNulConcat(a, "\0");
    WithoutNulConcat(a, b);
    assert "\0"[1..] == "" && WithoutNul("\0") == "";
    assert WithoutNul(a) + "" + WithoutNul(b) == WithoutNul(a) + WithoutNul(b);
    assert WithoutNul(a) + "" == WithoutNul(a);
  }

  /** The string form of a path names its components one after the other. */
  lemma {:induction false} RenderChild(p: Path, c: string)
    ensures Render([]) == "/" && Render(p + [c]) == (if p == [] then "" else Render(p)) + "/" + c
  {
    if p == [] {
      assert Join([c], '/') == c;
    } else {
      JoinLast(p, c);
      hide Join;
      Associate("/", Join(p, '/'), "/" + c);
      Associate(Join(p, '/'), "/", c);
      Associate("/" + Join(p, '/'), "/", c);
    }
  }

  lemma {:induction false} JoinLast(p: Path, c: string)
    requires p != []
    ensures Join(p + [c], '/') == Join(p, '/') + "/" + c
  {
    if |p| == 1 {
      assert (p + [c])[1..] == [c];
    } else {
      JoinLast(p[1..], c);
      assert (p + [c])[1..] == p[1..] + [c];
    }
  }
}
