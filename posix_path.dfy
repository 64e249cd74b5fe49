/** The pieces of Python's string and POSIX path library that the agent's
    directory layout is built from: `os.path.join`, `str.split`,
    `sep.join` and `str.lower` (restricted to ASCII letters). */
module PosixPath {

  type Path = string

  /** `p.startswith("/")`: joining such a component discards what came before. */
  predicate IsAbsolute(p: Path) {
    p != [] && p[0] == '/'
  }

  /** The path does not end with a separator (the empty path included). */
  predicate Trimmed(p: Path) {
    p == [] || p[|p| - 1] != '/'
  }

  /** `os.path.join(a, b)` on POSIX: an absolute `b` replaces `a`; otherwise a
      separator is inserted unless `a` is empty or already ends with one. */
  function Join(a: Path, b: Path): (p: Path)
    ensures IsAbsolute(b) ==> p == b
    ensures !IsAbsolute(b) ==> |p| == |a| + |b| + (if a != [] && Trimmed(a) then 1 else 0)
  {
    if IsAbsolute(b) then b
    else if a == [] || a[|a| - 1] == '/' then a + b
    else a + "/" + b
  }

  /** `os.path.join(a, *parts)`: the components are joined from left to right. */
  function JoinAll(a: Path, parts: seq<Path>): (p: Path)
    ensures parts != [] && IsAbsolute(parts[|parts| - 1]) ==> p == parts[|parts| - 1]
    ensures (forall i :: 0 <= i < |parts| ==> !IsAbsolute(parts[i])) ==> |a| <= |p| && p[..|a|] == a
  {
    if parts == [] then a
    else
      var init := parts[..|parts| - 1];
      var q := JoinAll(a, init);
      var p := Join(q, parts[|parts| - 1]);
      assert (forall i :: 0 <= i < |parts| ==> !IsAbsolute(parts[i])) ==> p[..|a|] == q[..|a|] == a;
      p
  }

  /** The text after the last separator (all of `p` when it has none). */
  function Leaf(p: Path): Path {
    if p == [] || p[|p| - 1] == '/' then []
    else Leaf(p[..|p| - 1]) + [p[|p| - 1]]
  }

  /** The text before the last separator (empty when `p` has none). */
  function Parent(p: Path): Path {
    if p == [] then []
    else if p[|p| - 1] == '/' then p[..|p| - 1]
    else Parent(p[..|p| - 1])
  }

  /** `p` names the entry `name` directly inside the directory `dir`. */
  predicate ChildOf(p: Path, dir: Path, name: Path) {
    Parent(p) == dir && Leaf(p) == name
  }

  /** Splitting a path at its last separator gives back what was put together. */
  lemma {:induction false} LeafAfterSeparator(a: Path, b: Path)
    requires '/' !in b
    ensures Leaf(a + "/" + b) == b && Parent(a + "/" + b) == a
  {
    var p := a + "/" + b;
    if b != [] {
      var b' := b[..|b| - 1];
      assert p[..|p| - 1] == a + "/" + b';
      LeafAfterSeparator(a, b');
      assert b == b' + [b[|b| - 1]];
    }
  }

  /** A separator-free path is its own leaf and has an empty parent. */
  lemma {:induction false} LeafOfPlainName(b: Path)
    requires '/' !in b
    ensures Leaf(b) == b && Parent(b) == []
  {
    if b != [] {
      LeafOfPlainName(b[..|b| - 1]);
      assert b == b[..|b| - 1] + [b[|b| - 1]];
    }
  }

  /** Joining a separator-free name puts it directly inside `a`. */
  lemma JoinChild(a: Path, b: Path)
    ensures '/' !in b ==> Leaf(Join(a, b)) == b
    ensures '/' !in b && Trimmed(a) ==> ChildOf(Join(a, b), a, b)
  {
    if '/' in b {
    } else if a == [] {
      assert Join(a, b) == b;
      LeafOfPlainName(b);
    } else if a[|a| - 1] == '/' {
      var a' := a[..|a| - 1];
      assert a + b == a' + "/" + b;
      LeafAfterSeparator(a', b);
    } else {
      LeafAfterSeparator(a, b);
    }
  }

  /** A relative component extends `a` by a separator that depends on `a` alone. */
  lemma JoinRelative(a: Path, b: Path)
    requires !IsAbsolute(b)
    ensures Join(a, b) == a + (if a == [] || a[|a| - 1] == '/' then "" else "/") + b
  {
  }

  /** Joining relative components onto a fixed directory is injective. */
  lemma JoinInjective(a: Path, b1: Path, b2: Path)
    requires !IsAbsolute(b1) && !IsAbsolute(b2)
    requires Join(a, b1) == Join(a, b2)
    ensures b1 == b2
  {
    var head := a + (if a == [] || a[|a| - 1] == '/' then "" else "/");
    JoinRelative(a, b1);
    JoinRelative(a, b2);
    assert Join(a, b1)[|head|..] == b1;
    assert Join(a, b2)[|head|..] == b2;
  }

  /** `s.split(sep)`: the pieces between separators, empty ones included, so
      that there is always at least one piece. */
  function Split(s: string, sep: char): (pieces: seq<string>)
    ensures |pieces| >= 1
    ensures forall i :: 0 <= i < |pieces| ==> sep !in pieces[i]
    decreases |s|
  {
    if s == [] then [[]]
    else
      var init := Split(s[..|s| - 1], sep);
      if s[|s| - 1] == sep then init + [[]]
      else init[..|init| - 1] + [init[|init| - 1] + [s[|s| - 1]]]
  }

  /** `sep.join(pieces)`. */
  function Concat(pieces: seq<string>, sep: char): string {
    if pieces == [] then []
    else if |pieces| == 1 then pieces[0]
    else Concat(pieces[..|pieces| - 1], sep) + [sep] + pieces[|pieces| - 1]
  }

  /** `sep.join(s.split(sep)) == s`. */
  lemma {:induction false} ConcatSplit(s: string, sep: char)
    ensures Concat(Split(s, sep), sep) == s
    decreases |s|
  {
    if s != [] {
      var s', c := s[..|s| - 1], s[|s| - 1];
      var init := Split(s', sep);
      ConcatSplit(s', sep);
      assert s == s' + [c];
      if c == sep {
        var pieces := init + [[]];
        assert pieces[..|pieces| - 1] == init;
        assert Concat(pieces, sep) == s' + [sep] + [];
      } else if |init| == 1 {
        assert Concat(Split(s, sep), sep) == init[0] + [c];
      } else {
        var k := |init| - 1;
        var pieces := init[..k] + [init[k] + [c]];
        assert pieces[..|pieces| - 1] == init[..k];
        calc {
          Concat(pieces, sep);
          Concat(init[..k], sep) + [sep] + (init[k] + [c]);
          (Concat(init[..k], sep) + [sep] + init[k]) + [c];
          Concat(init, sep) + [c];
        }
      }
    }
  }

  /** No separator at either end and no two separators in a row: every piece
      of `s.split(sep)` is non-empty. */
  predicate WellFormedName(s: string, sep: char) {
    && s != []
    && s[0] != sep
    && s[|s| - 1] != sep
    && forall i :: 0 < i < |s| ==> s[i] == sep ==> s[i - 1] != sep
  }

  lemma {:induction false} SplitPiecesNonEmpty(s: string, sep: char)
    requires s == [] || s[0] != sep
    requires forall i :: 0 < i < |s| ==> s[i] == sep ==> s[i - 1] != sep
    ensures forall i :: 0 <= i < |Split(s, sep)| - 1 ==> Split(s, sep)[i] != []
    ensures Split(s, sep)[|Split(s, sep)| - 1] == [] <==> s == [] || s[|s| - 1] == sep
    decreases |s|
  {
    if s != [] {
      var s' := s[..|s| - 1];
      SplitPiecesNonEmpty(s', sep);
      if s[|s| - 1] == sep {
        assert s' != [];
        assert s[|s| - 2] != sep;
      }
    }
  }

  function LowerChar(c: char): char {
    if 'A' <= c <= 'Z' then (c as int + 32) as char else c
  }

  /** `s.lower()` for ASCII text. */
  function Lower(s: string): (r: string)
    ensures |r| == |s|
    ensures forall i :: 0 <= i < |s| ==> r[i] == LowerChar(s[i])
    ensures forall i :: 0 <= i < |r| ==> !('A' <= r[i] <= 'Z')
    ensures forall i :: 0 <= i < |s| && !('A' <= s[i] <= 'Z') ==> r[i] == s[i]
    ensures forall i :: 0 <= i < |s| && 'A' <= s[i] <= 'Z' ==> r[i] as int == s[i] as int + 32
  {
    seq(|s|, i requires 0 <= i < |s| => LowerChar(s[i]))
  }

  /** Lower-casing twice changes nothing more, and it keeps a name well formed. */
  lemma LowerProperties(s: string)
    ensures Lower(Lower(s)) == Lower(s)
    ensures WellFormedName(s, '/') ==> WellFormedName(Lower(s), '/')
  {
  }

  /** Joining separator-free, non-empty components onto a trimmed directory
      puts exactly one separator before each of them. */
  lemma {:induction false} JoinAllPlainNames(a: Path, parts: seq<Path>)
    requires a != [] && Trimmed(a) && parts != []
    requires forall i :: 0 <= i < |parts| ==> parts[i] != [] && '/' !in parts[i]
    ensures JoinAll(a, parts) == a + "/" + Concat(parts, '/')
  {
    var n := |parts|;
    var last := parts[n - 1];
    var init := parts[..n - 1];
    assert '/' !in last && last != [];
    if n == 1 {
      assert init == [];
    } else {
      assert forall i :: 0 <= i < |init| ==> init[i] == parts[i];
      JoinAllPlainNames(a, init);
      var prefix := a + "/" + Concat(init, '/');
      ConcatEndsWithLast(init);
      assert prefix[|prefix| - 1] == init[n - 2][|init[n - 2]| - 1];
      assert Trimmed(prefix) && prefix != [];
      calc {
        JoinAll(a, parts);
        Join(JoinAll(a, init), last);
        Join(prefix, last);
        prefix + "/" + last;
        a + "/" + (Concat(init, '/') + "/" + last);
      }
    }
  }

  /** Joining the pieces of a well-formed name and then one more plain
      component onto a trimmed directory is plain concatenation. */
  lemma JoinAllSplitNames(a: Path, s: string, last: Path)
    requires a != [] && Trimmed(a) && WellFormedName(s, '/')
    requires last != [] && '/' !in last
    ensures JoinAll(a, Split(s, '/') + [last]) == (a + "/" + s) + "/" + last
  {
    var pieces := Split(s, '/');
    SplitPiecesNonEmpty(s, '/');
    var parts := pieces + [last];
    assert parts[..|parts| - 1] == pieces;
    JoinAllPlainNames(a, parts);
    ConcatSplit(s, '/');
    assert Concat(parts, '/') == s + "/" + last;
    assert JoinAll(a, parts) == a + "/" + (s + "/" + last);
    Assoc(a + "/", s + "/", last);
    Assoc(a + "/", s, "/");
  }

  /** Only regroups a concatenation for the solver. */
  lemma Assoc<T>(x: seq<T>, y: seq<T>, z: seq<T>)
    ensures x + (y + z) == (x + y) + z
  {
  }

  lemma ConcatEndsWithLast(pieces: seq<string>)
    requires pieces != [] && pieces[|pieces| - 1] != []
    ensures var c := Concat(pieces, '/'); var l := pieces[|pieces| - 1];
      |c| >= |l| && c[|c| - |l|..] == l
  {
  }
}
