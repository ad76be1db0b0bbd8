/**
 * Paths as sequences of segments, the string comparisons the program uses explicitly
 * (StringComparison.OrdinalIgnoreCase, string.IsNullOrWhiteSpace), and the ordinal
 * order in which a directory listing is modelled as being returned.
 */
module Paths {

  type Name = string

  /** A path from the filesystem root: `["C:", "mods", "foo"]` stands for `C:\mods\foo`. */
  type Path = seq<Name>

  /** Path.GetDirectoryName for a non-root path. */
  function Parent(p: Path): Path
    requires p != []
  {
    p[..|p| - 1]
  }

  /** Path.GetFileName: the last segment, or "" for the root. */
  function FileName(p: Path): Name
  {
    if p == [] then "" else p[|p| - 1]
  }

  /** The path rendered with the Windows separator, as the program's strings hold it. */
  function Render(p: Path): string
  {
    if p == [] then ""
    else if |p| == 1 then p[0]
    else Render(p[..|p| - 1]) + "\\" + p[|p| - 1]
  }

  /** An ancestor of a path's parent is a proper ancestor of the path. */
  lemma PrefixOfParent(q: Path, p: Path)
    requires p != [] && q <= Parent(p)
    ensures q < p
  {
  }

  /** Rendering a path extended by segments gives a strictly longer string. */
  lemma {:induction false} RenderGrows(p: Path, q: Path)
    requires p != [] && p < q
    ensures |Render(p)| < |Render(q)|
  {
    var init := q[..|q| - 1];
    assert p <= init;
    if p == init {
    } else {
      RenderGrows(p, init);
    }
  }

  // ---------------------------------------------------------------------------
  // Case-insensitive comparison (ASCII case folding)

  function UpperChar(c: char): char
  {
    if 'a' <= c <= 'z' then (c as int - 32) as char else c
  }

  function Upper(s: string): (r: string)
    ensures |r| == |s|
    ensures forall i :: 0 <= i < |s| ==> r[i] == UpperChar(s[i])
  {
    seq(|s|, i requires 0 <= i < |s| => UpperChar(s[i]))
  }

  /** string.Equals(a, b, StringComparison.OrdinalIgnoreCase). */
  predicate EqIgnoreCase(a: string, b: string)
  {
    Upper(a) == Upper(b)
  }

  lemma EqIgnoreCaseLength(a: string, b: string)
    requires EqIgnoreCase(a, b)
    ensures |a| == |b|
  {
    assert |Upper(a)| == |Upper(b)|;
  }

  predicate IsWhiteSpace(c: char)
  {
    c == ' ' || c == '\t' || c == '\n' || c == '\r' || c == '\U{B}' || c == '\U{C}'
  }

  /** string.IsNullOrWhiteSpace for a non-null string. */
  predicate IsBlank(s: string)
  {
    forall i :: 0 <= i < |s| ==> IsWhiteSpace(s[i])
  }

  // ---------------------------------------------------------------------------
  // Ordinal orders

  /** Ordinal (code unit by code unit) comparison: `a` sorts at or before `b`. */
  predicate NameLe(a: string, b: string)
  {
    if a == [] then true
    else if b == [] then false
    else if a[0] != b[0] then a[0] < b[0]
    else NameLe(a[1..], b[1..])
  }

  lemma NameLeTotal(a: string, b: string)
    ensures NameLe(a, b) || NameLe(b, a)
  {
  }

  lemma NameLeAntisymmetric(a: string, b: string)
    requires NameLe(a, b) && NameLe(b, a)
    ensures a == b
  {
    if a != [] && b != [] && a[0] == b[0] {
      NameLeAntisymmetric(a[1..], b[1..]);
      assert a == [a[0]] + a[1..];
      assert b == [b[0]] + b[1..];
    }
  }

  lemma NameLeTransitive(a: string, b: string, c: string)
    requires NameLe(a, b) && NameLe(b, c)
    ensures NameLe(a, c)
  {
  }

  /** Lexicographic order of paths, segment by segment. */
  predicate PathLe(p: Path, q: Path)
  {
    if p == [] then true
    else if q == [] then false
    else if p[0] != q[0] then NameLe(p[0], q[0])
    else PathLe(p[1..], q[1..])
  }

  lemma PathLeTotal(p: Path, q: Path)
    ensures PathLe(p, q) || PathLe(q, p)
  {
    if p != [] && q != [] {
      if p[0] != q[0] {
        NameLeTotal(p[0], q[0]);
      } else {
        PathLeTotal(p[1..], q[1..]);
      }
    }
  }

  lemma PathLeReflexive(p: Path)
    ensures PathLe(p, p)
  {
    if p != [] {
      PathLeReflexive(p[1..]);
    }
  }

  lemma PathLeAntisymmetric(p: Path, q: Path)
    requires PathLe(p, q) && PathLe(q, p)
    ensures p == q
  {
    if p != [] && q != [] {
      if p[0] != q[0] {
        NameLeAntisymmetric(p[0], q[0]);
      } else {
        PathLeAntisymmetric(p[1..], q[1..]);
        assert p == [p[0]] + p[1..];
        assert q == [q[0]] + q[1..];
      }
    }
  }

  lemma PathLeAntisymmetricAll()
    ensures forall p, q :: PathLe(p, q) && PathLe(q, p) ==> p == q
  {
    forall p, q | PathLe(p, q) && PathLe(q, p) ensures p == q {
      PathLeAntisymmetric(p, q);
    }
  }

  lemma PathLeTransitive(p: Path, q: Path, r: Path)
    requires PathLe(p, q) && PathLe(q, r)
    ensures PathLe(p, r)
  {
    if p != [] && q != [] && r != [] {
      if p[0] != q[0] || q[0] != r[0] {
        if p[0] != q[0] && q[0] != r[0] {
          NameLeTransitive(p[0], q[0], r[0]);
          if p[0] == r[0] {
            NameLeAntisymmetric(p[0], q[0]);
          }
        }
      } else {
        PathLeTransitive(p[1..], q[1..], r[1..]);
      }
    }
  }

  ghost predicate IsLeast(m: Path, s: set<Path>)
  {
    m in s && forall x :: x in s ==> PathLe(m, x)
  }

  lemma {:induction false} LeastExists(s: set<Path>)
    requires s != {}
    ensures exists m :: IsLeast(m, s)
    decreases |s|
  {
    var x :| x in s;
    PathLeReflexive(x);
    if s == {x} {
      assert IsLeast(x, s);
    } else {
      LeastExists(s - {x});
      var m :| IsLeast(m, s - {x});
      PathLeTotal(m, x);
      if PathLe(m, x) {
        assert IsLeast(m, s);
      } else {
        forall y | y in s ensures PathLe(x, y) {
          if y != x {
            PathLeTransitive(x, m, y);
          }
        }
        assert IsLeast(x, s);
      }
    }
  }

  /**
   * The paths of `s` in ascending ordinal order, each once. It is the order in which
   * the model lets a directory listing return its entries.
   */
  function SortedPaths(s: set<Path>): (r: seq<Path>)
    ensures |r| == |s|
    ensures forall p :: p in r <==> p in s
    ensures forall i, j :: 0 <= i < j < |r| ==> r[i] != r[j]
    decreases |s|
  {
    if s == {} then []
    else
      LeastExists(s);
      PathLeAntisymmetricAll();
      var m :| m in s && forall x :: x in s ==> PathLe(m, x);
      [m] + SortedPaths(s - {m})
  }
}
