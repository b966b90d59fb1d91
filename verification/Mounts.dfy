/** Reducing a set of paths to those that are not below another one. */
module Mounts {

  /** A path: absolute or relative, and its parts. */
  datatype Path = Path(absolute: bool, parts: seq<string>)

  predicate IsRelativeTo(p: Path, q: Path) {
    p.absolute == q.absolute && q.parts <= p.parts
  }

  /** The paths of a set that lie below no other path of the set. */
  ghost function Minimal(s: set<Path>): (m: set<Path>) {
    set p | p in s && forall q :: q in s && IsRelativeTo(p, q) ==> q == p
  }

  /** Every path of a set lies below a minimal one. */
  lemma {:induction false} Cover(s: set<Path>, p: Path) returns (m: Path)
    requires p in s
    ensures m in Minimal(s) && IsRelativeTo(p, m)
    decreases |p.parts|
  {
    if p in Minimal(s) {
      m := p;
    } else {
      var q :| q in s && IsRelativeTo(p, q) && q != p;
      m := Cover(s, q);
    }
  }

  /** ... and below only one. */
  lemma CoverUnique(s: set<Path>, p: Path, m: Path, m': Path)
    requires m in Minimal(s) && m' in Minimal(s) && IsRelativeTo(p, m) && IsRelativeTo(p, m')
    ensures m == m'
  {
    if |m.parts| <= |m'.parts| {
      assert IsRelativeTo(m', m);
    } else {
      assert IsRelativeTo(m, m');
    }
  }

  /** What one more path does to the minimal ones. */
  lemma MinimalMore(s: set<Path>, x: Path)
    ensures (exists p :: p in Minimal(s) && IsRelativeTo(x, p)) ==> Minimal(s + {x}) == Minimal(s)
    ensures !(exists p :: p in Minimal(s) && IsRelativeTo(x, p)) ==>
              Minimal(s + {x}) == (set p | p in Minimal(s) && !IsRelativeTo(p, x)) + {x}
  {
    forall q | q in s
      ensures exists m :: m in Minimal(s) && IsRelativeTo(q, m)
    {
      var m := Cover(s, q);
    }
    if p :| p in Minimal(s) && IsRelativeTo(x, p) {
      MinimalSame(s, x, p);
    } else {
      MinimalNew(s, x);
    }
  }

  lemma MinimalSame(s: set<Path>, x: Path, p: Path)
    requires p in Minimal(s) && IsRelativeTo(x, p)
    ensures Minimal(s + {x}) == Minimal(s)
  {
    forall m | m in Minimal(s)
      ensures m in Minimal(s + {x})
    {
      if IsRelativeTo(m, x) {
        assert IsRelativeTo(m, p);
      }
    }
    forall m | m in Minimal(s + {x})
      ensures m in Minimal(s)
    {
      if m == x {
        assert p == x;
      }
    }
  }

  lemma MinimalNew(s: set<Path>, x: Path)
    requires !exists p :: p in Minimal(s) && IsRelativeTo(x, p)
    ensures Minimal(s + {x}) == (set p | p in Minimal(s) && !IsRelativeTo(p, x)) + {x}
  {
    forall q | q in s
      ensures !IsRelativeTo(x, q)
    {
      if IsRelativeTo(x, q) {
        var m := Cover(s, q);
        assert IsRelativeTo(x, m);
      }
    }
  }

  /** Visiting the paths in any order leaves exactly the minimal ones. */
  method MinimizePaths(order: seq<Path>) returns (minimal: set<Path>)
    ensures minimal == Minimal(set p | p in order)
  {
    minimal := {};
    ghost var seen: set<Path> := {};
    for i := 0 to |order|
      invariant seen == (set p | p in order[..i]) && minimal == Minimal(seen)
    {
      var path := order[i];
      MinimalMore(seen, path);
      assert order[..i + 1] == order[..i] + [path];
      seen := seen + {path};
      if exists p :: p in minimal && IsRelativeTo(path, p) {
        continue;
      }
      minimal := minimal - (set p | p in minimal && IsRelativeTo(p, path)) + {path};
    }
    assert order[..|order|] == order;
  }

  /** The result is the least set of mounts: every input path lies below exactly one of
      them, none lies below another, and all are input paths. */
  lemma MinimalMounts(s: set<Path>)
    ensures Minimal(s) <= s
    ensures forall p :: p in s ==> exists m :: m in Minimal(s) && IsRelativeTo(p, m)
    ensures forall p, m, m' ::
              p in s && m in Minimal(s) && m' in Minimal(s) && IsRelativeTo(p, m) && IsRelativeTo(p, m') ==> m == m'
    ensures forall m, m' :: m in Minimal(s) && m' in Minimal(s) && IsRelativeTo(m, m') ==> m == m'
  {
    forall p | p in s
      ensures exists m :: m in Minimal(s) && IsRelativeTo(p, m)
    {
      var m := Cover(s, p);
    }
    forall p, m, m' | p in s && m in Minimal(s) && m' in Minimal(s) && IsRelativeTo(p, m) && IsRelativeTo(p, m')
      ensures m == m'
    {
      CoverUnique(s, p, m, m');
    }
  }
}
