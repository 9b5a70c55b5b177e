/** Marks set on paths, inherited by everything below. */
module Marks {
  import opened Common
  import opened Paths

  datatype Mark = Watch | Keep | Own

  const DEFAULT := Watch

  /** The root has the empty path. */
  type Table = map<string, Mark>

  function KeyOf(p: Option<Path>): string {
    match p
    case None => ""
    case Some(path) => path
  }

  function Height(p: Option<Path>): nat {
    |KeyOf(p)|
  }

  lemma ParentIsShorter(p: Path)
    ensures Height(Parent(p)) < |p|
  {
  }

  /** The mark of the path or else of its parent, and so on up to the root. */
  function GetMark(marks: Table, p: Option<Path>): Mark
    decreases Height(p)
  {
    if KeyOf(p) in marks then marks[KeyOf(p)]
    else
      match p
      case None => DEFAULT
      case Some(path) =>
        ParentIsShorter(path);
        GetMark(marks, Parent(path))
  }

  /** `q` is the path itself or above it; the root is above everything. */
  predicate AtOrAbove(q: Option<Path>, p: Option<Path>) {
    match q
    case None => true
    case Some(above) => p.Some? && StartsWith(p.value, above)
  }

  /** `q` is marked, at or above `p`, and nothing marked is nearer. */
  ghost predicate Nearest(marks: Table, p: Option<Path>, q: Option<Path>) {
    && KeyOf(q) in marks && AtOrAbove(q, p)
    && forall r | KeyOf(r) in marks && AtOrAbove(r, p) :: Height(r) <= Height(q)
  }

  ghost predicate Unmarked(marks: Table, p: Option<Path>) {
    forall r | KeyOf(r) in marks :: !AtOrAbove(r, p)
  }

  lemma AboveParent(q: Option<Path>, p: Path)
    requires q != Some(p)
    ensures AtOrAbove(q, Some(p)) <==> AtOrAbove(q, Parent(p))
  {
    if q.Some? {
      ParentChainIsStartsWith(p, q.value);
      if Parent(p).Some? {
        ParentChainIsStartsWith(Parent(p).value, q.value);
      }
    }
  }

  lemma AboveIsShorter(q: Option<Path>, p: Option<Path>)
    requires AtOrAbove(q, p)
    ensures Height(q) <= Height(p)
  {
  }

  lemma NothingNearer(marks: Table, p: Option<Path>)
    requires KeyOf(p) in marks
    ensures Nearest(marks, p, p)
  {
    assert p.Some? ==> p.value[..|p.value|] == p.value;
  }

  lemma SameHeightAbove(q: Option<Path>, r: Option<Path>, p: Option<Path>)
    requires AtOrAbove(q, p) && AtOrAbove(r, p) && Height(q) == Height(r)
    ensures q == r
  {
    if q.Some? {
      assert q.value == p.value[..|q.value|];
    }
    if r.Some? {
      assert r.value == p.value[..|r.value|];
    }
  }

  /** Walking up finds the mark of the nearest marked path at or above. */
  lemma {:induction false} GetMarkIsNearest(marks: Table, p: Option<Path>, q: Option<Path>)
    requires Nearest(marks, p, q)
    ensures GetMark(marks, p) == marks[KeyOf(q)]
    decreases Height(p)
  {
    if KeyOf(p) in marks {
      NothingNearer(marks, p);
      AboveIsShorter(q, p);
      SameHeightAbove(q, p, p);
    } else {
      var path := p.value;
      forall r | KeyOf(r) in marks ensures AtOrAbove(r, p) <==> AtOrAbove(r, Parent(path)) {
        AboveParent(r, path);
      }
      ParentIsShorter(path);
      GetMarkIsNearest(marks, Parent(path), q);
    }
  }

  lemma {:induction false} GetMarkUnmarked(marks: Table, p: Option<Path>)
    requires Unmarked(marks, p)
    ensures GetMark(marks, p) == DEFAULT
    decreases Height(p)
  {
    if KeyOf(p) in marks {
      NothingNearer(marks, p);
    } else if p.Some? {
      forall r | KeyOf(r) in marks ensures !AtOrAbove(r, Parent(p.value)) {
        AboveParent(r, p.value);
      }
      ParentIsShorter(p.value);
      GetMarkUnmarked(marks, Parent(p.value));
    }
  }

  lemma {:induction false} NearestExists(marks: Table, p: Option<Path>) returns (q: Option<Path>)
    requires !Unmarked(marks, p)
    ensures Nearest(marks, p, q)
    decreases Height(p)
  {
    if KeyOf(p) in marks {
      NothingNearer(marks, p);
      q := p;
    } else {
      var r :| KeyOf(r) in marks && AtOrAbove(r, p);
      var path := p.value;
      forall s | KeyOf(s) in marks ensures AtOrAbove(s, p) <==> AtOrAbove(s, Parent(path)) {
        AboveParent(s, path);
      }
      ParentIsShorter(path);
      q := NearestExists(marks, Parent(path));
    }
  }

  // ---------------------------------------------------------------------
  // Whose mark changes
  // ---------------------------------------------------------------------

  /** Setting a mark changes the marks of paths at or below it only, all of them from the same mark. */
  lemma {:induction false} SetMarkEffect(marks: Table, at: Option<Path>, mark: Mark, p: Option<Path>)
    ensures
      || GetMark(marks[KeyOf(at) := mark], p) == GetMark(marks, p)
      || (&& AtOrAbove(at, p) && GetMark(marks, p) == GetMark(marks, at)
          && GetMark(marks[KeyOf(at) := mark], p) == mark)
    decreases Height(p)
  {
    if KeyOf(p) == KeyOf(at) {
      assert p == at;
      NothingNearer(marks[KeyOf(at) := mark], p);
    } else if KeyOf(p) !in marks && p.Some? {
      ParentIsShorter(p.value);
      AboveParent(at, p.value);
      SetMarkEffect(marks, at, mark, Parent(p.value));
    }
  }

  /** So does clearing a mark. */
  lemma {:induction false} ClearMarkEffect(marks: Table, at: Path, p: Option<Path>)
    requires at in marks
    ensures
      || GetMark(marks - {at}, p) == GetMark(marks, p)
      || (&& AtOrAbove(Some(at), p) && GetMark(marks, p) == marks[at]
          && GetMark(marks - {at}, p) == GetMark(marks - {at}, Some(at)))
    decreases Height(p)
  {
    if KeyOf(p) == at {
      assert p == Some(at);
      NothingNearer(marks, p);
    } else if KeyOf(p) !in marks && p.Some? {
      ParentIsShorter(p.value);
      AboveParent(Some(at), p.value);
      ClearMarkEffect(marks, at, Parent(p.value));
    }
  }
}
