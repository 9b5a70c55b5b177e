/** Slash-separated paths within an arena. */
module Paths {
  import opened Common

  datatype PathError = InvalidPath

  /** The number of characters before the first slash. */
  function FirstSlash(s: string): (k: nat)
    ensures k <= |s|
    ensures k < |s| ==> s[k] == '/'
  {
    if s == "" || s[0] == '/' then 0 else 1 + FirstSlash(s[1..])
  }

  /** The position of the last slash, if any. */
  function LastSlash(s: string): (k: Option<nat>)
    ensures k.Some? ==> k.value < |s| && s[k.value] == '/'
  {
    if s == "" then None
    else if s[|s| - 1] == '/' then Some(|s| - 1)
    else LastSlash(s[..|s| - 1])
  }

  /** The parts between slashes; there is always at least one. */
  function Split(s: string): (cs: seq<string>)
    ensures |cs| >= 1
  {
    var k := FirstSlash(s);
    if k == |s| then [s] else [s[..k]] + Split(s[k + 1..])
  }

  function Join(cs: seq<string>): string
    requires cs != []
  {
    if |cs| == 1 then cs[0] else cs[0] + "/" + Join(cs[1..])
  }

  predicate ValidName(c: string) {
    c != "" && c != "." && c != ".."
  }

  predicate ValidPath(s: string) {
    s != "" && ':' !in s && forall c | c in Split(s) :: ValidName(c)
  }

  type Path = s: string | ValidPath(s) witness "a"

  function Parse(s: string): Result<Path, PathError> {
    if ValidPath(s) then Ok(s) else Err(InvalidPath)
  }

  function Components(p: Option<Path>): seq<string> {
    match p
    case None => []
    case Some(path) => Split(path)
  }

  function Name(p: Path): string {
    match LastSlash(p)
    case None => p
    case Some(k) => p[k + 1..]
  }

  function Parent(p: Path): (q: Option<Path>)
    ensures q.Some? ==> |q.value| < |p|
  {
    match LastSlash(p)
    case None => None
    case Some(k) =>
      ParentIsValid(p, k);
      Some(p[..k])
  }

  predicate StartsWith(p: string, q: string) {
    q <= p && (|p| == |q| || p[|q|] == '/')
  }

  // ---------------------------------------------------------------------
  // Splitting and joining
  // ---------------------------------------------------------------------

  lemma {:induction false} FirstSlashConcat(a: string, b: string)
    ensures FirstSlash(a + "/" + b) == FirstSlash(a)
  {
    var s := a + "/" + b;
    if a != "" && a[0] != '/' {
      assert s[1..] == a[1..] + "/" + b;
      FirstSlashConcat(a[1..], b);
    }
  }

  lemma SplitCons(head: string, rest: string)
    requires FirstSlash(head) == |head|
    ensures Split(head + "/" + rest) == [head] + Split(rest)
  {
    var s := head + "/" + rest;
    FirstSlashConcat(head, rest);
    assert s[..|head|] == head;
    assert s[|head| + 1..] == rest;
  }

  lemma {:induction false} FirstPart(a: string)
    ensures FirstSlash(a[..FirstSlash(a)]) == FirstSlash(a)
    decreases |a|
  {
    if a != "" && a[0] != '/' {
      FirstPart(a[1..]);
      assert a[..FirstSlash(a)][1..] == a[1..][..FirstSlash(a[1..])];
    }
  }

  lemma {:induction false} SplitConcat(a: string, b: string)
    ensures Split(a + "/" + b) == Split(a) + Split(b)
    decreases |a|
  {
    var k := FirstSlash(a);
    FirstPart(a);
    if k == |a| {
      SplitCons(a, b);
    } else {
      var head, rest := a[..k], a[k + 1..];
      SplitConcat(rest, b);
      SplitCons(head, rest + "/" + b);
      SlashMoves(a, k, b);
    }
  }

  lemma SlashMoves(a: string, k: nat, b: string)
    requires k < |a| && a[k] == '/'
    ensures a + "/" + b == a[..k] + "/" + (a[k + 1..] + "/" + b)
  {
  }

  /** Any slash splits the components in two. */
  lemma SplitAt(s: string, i: nat)
    requires i < |s| && s[i] == '/'
    ensures Split(s) == Split(s[..i]) + Split(s[i + 1..])
  {
    AroundSlash(s, i);
    SplitConcat(s[..i], s[i + 1..]);
  }

  lemma {:induction false} SplitPlain(s: string)
    requires '/' !in s
    ensures FirstSlash(s) == |s| && Split(s) == [s]
  {
    if s != "" {
      assert s[0] in s;
      SplitPlain(s[1..]);
    }
  }

  lemma {:induction false} LastSlashIsLast(s: string)
    ensures LastSlash(s).None? ==> '/' !in s
    ensures LastSlash(s).Some? ==> '/' !in s[LastSlash(s).value + 1..]
  {
    if s != "" && s[|s| - 1] != '/' {
      var n := |s| - 1;
      LastSlashIsLast(s[..n]);
      assert s == s[..n] + [s[n]];
      if LastSlash(s).Some? {
        var k := LastSlash(s).value;
        assert s[k + 1..] == s[..n][k + 1..] + [s[n]];
      }
    }
  }

  lemma AroundSlash(s: string, k: nat)
    requires k < |s| && s[k] == '/'
    ensures s == s[..k] + "/" + s[k + 1..]
  {
  }

  lemma {:induction false} JoinSplit(s: string)
    ensures Join(Split(s)) == s
    decreases |s|
  {
    var k := FirstSlash(s);
    if k < |s| {
      JoinSplit(s[k + 1..]);
      AroundSlash(s, k);
    }
  }

  lemma {:induction false} SplitJoin(cs: seq<string>)
    requires cs != [] && forall c | c in cs :: '/' !in c
    ensures Split(Join(cs)) == cs
  {
    SplitPlain(cs[0]);
    if |cs| == 1 {
      assert cs == [cs[0]];
    } else {
      SplitJoin(cs[1..]);
      var s := Join(cs);
      SplitAt(s, |cs[0]|);
      assert s[..|cs[0]|] == cs[0];
      assert s[|cs[0]| + 1..] == Join(cs[1..]);
      assert cs == [cs[0]] + cs[1..];
    }
  }

  lemma {:induction false} JoinConcat(as_: seq<string>, bs: seq<string>)
    requires as_ != [] && bs != []
    ensures Join(as_ + bs) == Join(as_) + "/" + Join(bs)
  {
    if |as_| == 1 {
      assert (as_ + bs)[1..] == bs;
    } else {
      assert (as_ + bs)[1..] == as_[1..] + bs;
      JoinConcat(as_[1..], bs);
    }
  }

  /** Paths are determined by their components. */
  lemma SplitInjective(p: string, q: string)
    requires Split(p) == Split(q)
    ensures p == q
  {
    JoinSplit(p);
    JoinSplit(q);
  }

  lemma LastSlashSplits(s: string, k: nat)
    requires LastSlash(s) == Some(k)
    ensures Split(s) == Split(s[..k]) + [s[k + 1..]]
  {
    SplitAt(s, k);
    LastSlashIsLast(s);
    SplitPlain(s[k + 1..]);
  }

  lemma ParentIsValid(p: Path, k: nat)
    requires LastSlash(p) == Some(k)
    ensures ValidPath(p[..k])
  {
    LastSlashSplits(p, k);
    SplitPlain("");
    assert ValidName(Split(p)[0]);
    assert Split(p)[0] == Split(p[..k])[0];
  }

  /** The parent drops the last component, which is the name; there is none for a single component. */
  lemma ParentComponents(p: Path)
    ensures Components(Some(p)) == Components(Parent(p)) + [Name(p)]
    ensures Parent(p).None? <==> |Split(p)| == 1
  {
    match LastSlash(p)
    case None =>
      LastSlashIsLast(p);
      SplitPlain(p);
    case Some(k) => LastSlashSplits(p, k);
  }

  // ---------------------------------------------------------------------
  // Ancestors
  // ---------------------------------------------------------------------

  lemma StartsWithGivesPrefix(p: string, q: string)
    requires StartsWith(p, q)
    ensures Split(q) <= Split(p)
  {
    if |p| == |q| {
      assert p == q;
    } else {
      SplitAt(p, |q|);
      assert p[..|q|] == q;
    }
  }

  lemma PrefixGivesStartsWith(p: string, q: string)
    requires Split(q) <= Split(p)
    ensures StartsWith(p, q)
  {
    JoinSplit(p);
    JoinSplit(q);
    var rest := Split(p)[|Split(q)|..];
    assert Split(p) == Split(q) + rest;
    if rest == [] {
      assert Split(p) == Split(q);
    } else {
      JoinConcat(Split(q), rest);
    }
  }

  /** On components, `StartsWith` is the prefix relation, whatever the strings. */
  lemma StartsWithIsPrefix(p: string, q: string)
    ensures StartsWith(p, q) <==> Split(q) <= Split(p)
  {
    if StartsWith(p, q) {
      StartsWithGivesPrefix(p, q);
    }
    if Split(q) <= Split(p) {
      PrefixGivesStartsWith(p, q);
    }
  }

  /** Whether `q` is met when walking up from `p`. */
  predicate InParentChain(p: Path, q: Path)
    decreases |p|
  {
    p == q || (Parent(p).Some? && InParentChain(Parent(p).value, q))
  }

  lemma PrefixOfInit<T>(ds: seq<T>, cs: seq<T>)
    requires cs != [] && ds != cs
    ensures ds <= cs <==> ds <= cs[..|cs| - 1]
  {
    if ds <= cs {
      assert |ds| < |cs| by {
        assert |ds| == |cs| ==> ds == cs;
      }
    }
  }

  /** The paths met when walking up are exactly those that `p` starts with. */
  lemma {:induction false} ParentChainIsStartsWith(p: Path, q: Path)
    ensures InParentChain(p, q) <==> StartsWith(p, q)
    decreases |p|
  {
    var cs, ds := Split(p), Split(q);
    StartsWithIsPrefix(p, q);
    ParentComponents(p);
    if cs == ds {
      SplitInjective(p, q);
    } else {
      match Parent(p)
      case None =>
        assert cs == [Name(p)];
      case Some(up) =>
        ParentChainIsStartsWith(up, q);
        StartsWithIsPrefix(up, q);
        assert cs[..|cs| - 1] == Split(up);
        PrefixOfInit(ds, cs);
    }
  }
}
