/** Stripping `.claude/worktrees/<name>` out of a path.

    The substitution is modelled on the characters the pattern scans and, separately, on the path's segments;
    the two are shown to agree. */
module Worktrees {

  const CLAUDE := ".claude"
  const TREES := "worktrees"

  // ---------------------------------------------------------------- on characters

  /** Up to the first slash. */
  function Head(s: string): (h: string)
    ensures h <= s && '/' !in h
    ensures |h| < |s| ==> s[|h|] == '/'
  {
    if s == [] || s[0] == '/' then [] else [s[0]] + Head(s[1..])
  }

  /** What follows the first slash, if there is one. */
  function Rest(s: string): (r: string)
    ensures |Head(s)| < |s| ==> s == Head(s) + "/" + r
    ensures |Head(s)| == |s| ==> r == []
  {
    if |Head(s)| < |s| then s[|Head(s)| + 1..] else []
  }

  predicate HasRest(s: string) {
    |Head(s)| < |s|
  }

  /** The pattern after its leading anchor or slash: the two fixed segments and a non-empty name. */
  predicate Body(s: string) {
    && Head(s) == CLAUDE && HasRest(s)
    && Head(Rest(s)) == TREES && HasRest(Rest(s))
    && Head(Rest(Rest(s))) != []
  }

  function AfterName(s: string): string
    requires Body(s)
  {
    Rest(Rest(s))
  }

  /** One left-to-right substitution. The anchor matches only before the first character; a match that ends
      in a slash uses it up, so what follows cannot begin another match. */
  function Sub(s: string, anchored: bool): string
    decreases |s|
  {
    if anchored && Body(s) then
      if HasRest(AfterName(s)) then Sub(Rest(AfterName(s)), false) else []
    else if s == [] then []
    else if s[0] == '/' && Body(s[1..]) then
      if HasRest(AfterName(s[1..])) then "/" + Sub(Rest(AfterName(s[1..])), false) else []
    else [s[0]] + Sub(s[1..], false)
  }

  // ---------------------------------------------------------------- on segments

  type Path = seq<string>

  predicate Split(p: Path) {
    forall i :: 0 <= i < |p| ==> '/' !in p[i]
  }

  function Join(p: Path): string {
    if p == [] then []
    else if |p| == 1 then p[0]
    else p[0] + "/" + Join(p[1..])
  }

  predicate Triple(p: Path) {
    |p| >= 3 && p[0] == CLAUDE && p[1] == TREES && p[2] != []
  }

  /** One pass; a triple straight after a dropped one is passed over. */
  function Pass(p: Path, blocked: bool): (r: Path)
    ensures |r| <= |p|
  {
    if p == [] then []
    else if !blocked && Triple(p) then Pass(p[3..], true)
    else [p[0]] + Pass(p[1..], false)
  }

  // ---------------------------------------------------------------- the two agree

  lemma {:induction false} HeadOfConcat(a: string, b: string)
    requires '/' !in a
    ensures Head(a + "/" + b) == a && Rest(a + "/" + b) == b && Head(a) == a
  {
    if a == [] {
      assert a + "/" + b == ['/'] + b;
      assert ("/" + b)[1..] == b;
    } else {
      HeadOfConcat(a[1..], b);
      assert (a + "/" + b)[1..] == a[1..] + "/" + b;
    }
  }

  lemma JoinHead(p: Path)
    requires Split(p) && p != []
    ensures Head(Join(p)) == p[0] && Rest(Join(p)) == Join(p[1..]) && (HasRest(Join(p)) <==> |p| > 1)
  {
    if |p| == 1 {
      HeadOfConcat(p[0], []);
    } else {
      HeadOfConcat(p[0], Join(p[1..]));
    }
  }

  lemma BodyIsTriple(p: Path)
    requires Split(p) && p != []
    ensures Body(Join(p)) <==> Triple(p)
    ensures Triple(p) ==>
              && (HasRest(AfterName(Join(p))) <==> |p| > 3)
              && Rest(AfterName(Join(p))) == Join(p[3..])
  {
    JoinHead(p);
    if |p| > 1 {
      JoinHead(p[1..]);
      if |p| > 2 {
        JoinHead(p[2..]);
        assert p[1..][1..] == p[2..] && p[2..][1..] == p[3..];
      }
    }
  }

  lemma SubCopies(c: char, rest: string)
    requires c != '/'
    ensures Sub([c] + rest, false) == [c] + Sub(rest, false)
  {
    hide Body;
    assert ([c] + rest)[1..] == rest;
  }

  /** Scanning through one segment. */
  lemma {:induction false} SubThroughHead(a: string, rest: string)
    requires '/' !in a
    ensures Sub(a + rest, false) == a + Sub(rest, false)
  {
    hide Sub;
    if a == [] {
      assert a + rest == rest && a + Sub(rest, false) == Sub(rest, false);
    } else {
      SubThroughHead(a[1..], rest);
      SubCopies(a[0], a[1..] + rest);
      assert a + rest == [a[0]] + (a[1..] + rest);
      assert [a[0]] + (a[1..] + Sub(rest, false)) == a + Sub(rest, false);
    }
  }

  lemma JoinCons(h: string, p: Path)
    ensures Join([h] + p) == if p == [] then h else h + "/" + Join(p)
  {
    assert ([h] + p)[1..] == p;
  }

  /** The characters after a separator: a fresh segment may begin a match there. */
  lemma {:induction false} SubAfterSlash(p: Path)
    requires Split(p) && p != []
    ensures Sub("/" + Join(p), false) == if Pass(p, false) == [] then [] else "/" + Join(Pass(p, false))
    decreases |p|, 1
  {
    BodyIsTriple(p);
    assert ("/" + Join(p))[1..] == Join(p);
    hide Join;
    hide Body;
    if Triple(p) {
      if |p| > 3 {
        SubUnanchored(p[3..]);
      }
    } else {
      SubUnanchored(p);
      PassUnblocked(p);
    }
  }

  lemma PassUnblocked(p: Path)
    requires !Triple(p)
    ensures Pass(p, false) == Pass(p, true)
  {
  }

  lemma PassCopies(h: string, p: Path)
    ensures Pass([h] + p, true) == [h] + Pass(p, false)
  {
    assert ([h] + p)[1..] == p;
  }

  lemma SubOfHead(a: string)
    requires '/' !in a
    ensures Sub(a, false) == a
  {
    assert Sub([], false) == [];
    hide Sub;
    SubThroughHead(a, []);
    assert a + [] == a;
  }

  /** The characters of a path none of which may use the anchor. */
  lemma {:induction false} SubUnanchored(p: Path)
    requires Split(p) && p != []
    ensures Pass(p, true) != [] && Sub(Join(p), false) == Join(Pass(p, true))
    decreases |p|, 0
  {
    hide Join;
    hide Pass;
    hide Sub;
    var h, rest := p[0], p[1..];
    assert p == [h] + rest;
    PassCopies(h, rest);
    JoinCons(h, rest);
    JoinCons(h, Pass(rest, false));
    if rest == [] {
      SubOfHead(h);
    } else {
      SubThroughHead(h, "/" + Join(rest));
      SubAfterSlash(rest);
      HeadThenSlash(h, Join(rest), Sub("/" + Join(rest), false), Join(Pass(rest, false)), Pass(rest, false) == []);
    }
  }

  lemma HeadThenSlash(h: string, rest: string, subbed: string, joined: string, gone: bool)
    requires subbed == if gone then [] else "/" + joined
    ensures h + "/" + rest == h + ("/" + rest)
    ensures h + subbed == if gone then h else h + "/" + joined
  {
  }

  /** The substitution on a path's characters is the pass over its segments. */
  lemma SubIsPass(p: Path)
    requires Split(p)
    ensures Sub(Join(p), true) == Join(Pass(p, false)) && Split(Pass(p, false))
  {
    PassDrops(p, false);
    DropsKeepsSplit(p, Pass(p, false));
    if p == [] {
      return;
    }
    BodyIsTriple(p);
    if Triple(p) {
      if |p| > 3 {
        SubUnanchored(p[3..]);
      }
    } else {
      SubUnanchored(p);
      PassUnblocked(p);
      NotAnchored(Join(p));
    }
  }

  lemma NotAnchored(s: string)
    requires !Body(s)
    ensures Sub(s, true) == Sub(s, false)
  {
    hide Body;
  }

  // ---------------------------------------------------------------- only whole triples go

  /** `q` is `p` with some non-overlapping worktree triples deleted. */
  predicate Drops(p: Path, q: Path) {
    || p == q
    || (Triple(p) && Drops(p[3..], q))
    || (p != [] && q != [] && p[0] == q[0] && Drops(p[1..], q[1..]))
  }

  lemma {:induction false} PassDrops(p: Path, blocked: bool)
    ensures Drops(p, Pass(p, blocked))
  {
    if p != [] {
      if !blocked && Triple(p) {
        PassDrops(p[3..], true);
      } else {
        PassDrops(p[1..], false);
        assert ([p[0]] + Pass(p[1..], false))[1..] == Pass(p[1..], false);
      }
    }
  }

  lemma {:induction false} DropsKeepsSplit(p: Path, q: Path)
    requires Split(p) && Drops(p, q)
    ensures Split(q)
  {
    if p != q {
      if Triple(p) && Drops(p[3..], q) {
        DropsKeepsSplit(p[3..], q);
      } else {
        DropsKeepsSplit(p[1..], q[1..]);
        assert q == [q[0]] + q[1..];
      }
    }
  }

  // ---------------------------------------------------------------- how many passes it takes

  predicate PairAt(p: Path) {
    |p| >= 3 && p[0] == CLAUDE && p[1] == TREES
  }

  /** Adjacent `.claude`, `worktrees` pairs with something after them. */
  function Pairs(p: Path): nat {
    if p == [] then 0 else (if PairAt(p) then 1 else 0) + Pairs(p[1..])
  }

  predicate NoDoubled(p: Path) {
    forall i :: 0 <= i < |p| - 1 ==> !(p[i] == CLAUDE && p[i + 1] == CLAUDE)
  }

  /** A pass that changes anything removes at least one pair, and makes no new ones where no two adjacent
      segments are both `.claude`. */
  lemma {:induction false} PassLowersPairs(p: Path, blocked: bool)
    requires NoDoubled(p)
    ensures var q := Pass(p, blocked); NoDoubled(q) && (q == p || Pairs(q) < Pairs(p))
  {
    if p != [] {
      if !blocked && Triple(p) {
        PassLowersPairs(p[3..], true);
        assert p[1..][1..] == p[2..] && p[2..][1..] == p[3..];
        assert Pairs(p) == 1 + Pairs(p[1..]) && Pairs(p[1..]) == Pairs(p[2..]) >= Pairs(p[3..]);
      } else {
        var rest := p[1..];
        var q := Pass(rest, false);
        PassLowersPairs(rest, false);
        assert ([p[0]] + q)[1..] == q;
        HeadOfPass(p, q);
      }
    }
  }

  /** In front of a passed-over rest, the first segment gains no new neighbour that matters. */
  lemma HeadOfPass(p: Path, q: Path)
    requires p != [] && NoDoubled(p) && q == Pass(p[1..], false) && NoDoubled(q)
    ensures NoDoubled([p[0]] + q) && (PairAt([p[0]] + q) ==> PairAt(p))
  {
    var rest := p[1..];
    if rest != [] && !Triple(rest) {
      assert q[0] == rest[0];
    }
    if p[0] == CLAUDE {
      assert rest != [] ==> rest[0] != CLAUDE;
    }
  }

  /** Segments named `worktrees` with something after them. */
  function Trees(p: Path): nat {
    if |p| <= 1 then 0 else (if p[0] == TREES then 1 else 0) + Trees(p[1..])
  }

  /** A pass that changes anything removes one of them, doubled segments or not. */
  lemma {:induction false} PassLowersTrees(p: Path, blocked: bool)
    ensures var q := Pass(p, blocked); q == p || Trees(q) < Trees(p)
  {
    if p != [] {
      if !blocked && Triple(p) {
        PassLowersTrees(p[3..], true);
        assert p[1..][1..] == p[2..] && p[2..][1..] == p[3..];
        assert Trees(p) == Trees(p[1..]) == 1 + Trees(p[2..]) && Trees(p[2..]) >= Trees(p[3..]);
      } else {
        var rest, q := p[1..], Pass(p[1..], false);
        PassLowersTrees(rest, false);
        assert ([p[0]] + q)[1..] == q && p == [p[0]] + rest;
        assert |p| > 1 ==> Trees(p) == (if p[0] == TREES then 1 else 0) + Trees(rest);
      }
    }
  }

  lemma {:induction false} FixpointHasNoTriple(p: Path, i: nat)
    requires Pass(p, false) == p && i <= |p|
    ensures !Triple(p[i..])
  {
    if i == 0 {
      assert p[0..] == p;
    } else {
      assert p == [p[0]] + Pass(p[1..], false);
      assert p[1..] == Pass(p[1..], false);
      FixpointHasNoTriple(p[1..], i - 1);
      assert p[1..][i - 1..] == p[i..];
    }
  }

  function Passes(p: Path, k: nat): Path
    decreases k
  {
    if k == 0 then p else Passes(Pass(p, false), k - 1)
  }

  /** Either measure, if the passes reach it, brings them to a fixpoint. */
  predicate Suffices(p: Path, k: nat) {
    (NoDoubled(p) && Pairs(p) <= k) || Trees(p) <= k
  }

  lemma {:induction false} EnoughPasses(p: Path, k: nat)
    requires Suffices(p, k)
    ensures var q := Passes(p, k); Pass(q, false) == q
    decreases k
  {
    if Pass(p, false) == p {
      StillAtFixpoint(p, k);
    } else {
      PassLowersTrees(p, false);
      if NoDoubled(p) {
        PassLowersPairs(p, false);
      }
      EnoughPasses(Pass(p, false), k - 1);
    }
  }

  lemma {:induction false} StillAtFixpoint(p: Path, k: nat)
    requires Pass(p, false) == p
    ensures Passes(p, k) == p
    decreases k
  {
    if k > 0 {
      StillAtFixpoint(p, k - 1);
    }
  }

  // ---------------------------------------------------------------- the bound the source computes

  const NEEDLE := ".claude/worktrees/"

  /** `str.count`: occurrences that do not overlap. */
  function Count(s: string): nat
    decreases |s|
  {
    if |s| < |NEEDLE| then 0
    else if s[..|NEEDLE|] == NEEDLE then 1 + Count(s[|NEEDLE|..])
    else Count(s[1..])
  }

  lemma {:induction false} CountWithoutDot(a: string, rest: string)
    requires '.' !in a
    ensures Count(a + rest) == Count(rest)
  {
    if a == [] {
      assert a + rest == rest;
    } else {
      CountWithoutDot(a[1..], rest);
      CountStep(a[0], a[1..] + rest);
      assert a + rest == [a[0]] + (a[1..] + rest);
    }
  }

  lemma CountStep(c: char, rest: string)
    ensures ([c] + rest)[..if |rest| + 1 < |NEEDLE| then |rest| + 1 else |NEEDLE|] != NEEDLE ==>
            Count([c] + rest) == Count(rest)
    ensures c != '.' ==> Count([c] + rest) == Count(rest)
  {
    assert ([c] + rest)[1..] == rest;
    assert |NEEDLE| == 18 && NEEDLE[0] == '.';
  }

  lemma {:induction false} CountNeverDrops(a: string, rest: string)
    ensures Count(a + rest) >= Count(rest)
  {
    if a == [] {
      assert a + rest == rest;
    } else {
      var s := a[1..] + rest;
      CountNeverDrops(a[1..], rest);
      assert a + rest == [a[0]] + s;
      CountAfterOne(a[0], s);
    }
  }

  lemma CountAfterOne(c: char, s: string)
    ensures Count([c] + s) >= Count(s)
  {
    var t := [c] + s;
    CountStep(c, s);
    if |t| >= |NEEDLE| && t[..|NEEDLE|] == NEEDLE {
      assert s == NEEDLE[1..] + t[|NEEDLE|..];
      assert '.' !in NEEDLE[1..];
      CountWithoutDot(NEEDLE[1..], t[|NEEDLE|..]);
    }
  }

  lemma Regroup(a: string, b: string, c: string, rest: string)
    ensures a + b + (c + b + rest) == a + b + c + b + rest
  {
  }

  lemma NeedleIsJoin(p: Path)
    requires p != []
    ensures Join([CLAUDE, TREES] + p) == NEEDLE + Join(p)
  {
    JoinCons(TREES, p);
    JoinCons(CLAUDE, [TREES] + p);
    assert CLAUDE + "/" + TREES + "/" == NEEDLE;
    Regroup(CLAUDE, "/", TREES, Join(p));
    assert [CLAUDE] + ([TREES] + p) == [CLAUDE, TREES] + p;
  }

  lemma {:induction false} PairsAreCounted(p: Path)
    ensures Pairs(p) <= Count(Join(p))
    decreases |p|
  {
    hide Count;
    if |p| >= 2 {
      JoinCons(p[0], p[1..]);
      hide Join;
      assert p == [p[0]] + p[1..];
      PairsAreCounted(p[1..]);
      CountNeverDrops(p[0] + "/", Join(p[1..]));
      if PairAt(p) {
        assert p[1..][1..] == p[2..];
        PairsAreCounted(p[2..]);
        NeedleCounts(Join(p[2..]));
        NeedleIsJoin(p[2..]);
        assert p == [CLAUDE, TREES] + p[2..];
      }
    }
  }

  lemma NeedleCounts(rest: string)
    ensures Count(NEEDLE + rest) == 1 + Count(rest)
  {
    assert (NEEDLE + rest)[..|NEEDLE|] == NEEDLE && (NEEDLE + rest)[|NEEDLE|..] == rest;
  }

  // ---------------------------------------------------------------- the loop

  /** Repeated substitution. */
  function Subs(s: string, k: nat): string
    decreases k
  {
    if k == 0 then s else Subs(Sub(s, true), k - 1)
  }

  lemma {:induction false} SettledStays(s: string, k: nat)
    requires Sub(s, true) == s
    ensures Subs(s, k) == s
    decreases k
  {
    hide Sub;
    if k > 0 {
      SettledStays(s, k - 1);
    }
  }

  method StripWorktreePrefix(path: string) returns (stripped: string)
    ensures stripped == Subs(path, Count(path) + 1)
  {
    hide Sub;
    hide Count;
    stripped := path;
    var passes := Count(path) + 1;
    for i := 0 to passes
      invariant Subs(path, passes) == Subs(stripped, passes - i)
    {
      var next := Sub(stripped, true);
      if next == stripped {
        SettledStays(stripped, passes - i);
        return;
      }
      stripped := next;
    }
  }

  lemma {:induction false} SubsArePasses(p: Path, k: nat)
    requires Split(p)
    ensures Subs(Join(p), k) == Join(Passes(p, k)) && Split(Passes(p, k))
    decreases k
  {
    hide Sub;
    hide Pass;
    hide Join;
    if k > 0 {
      SubIsPass(p);
      SubsArePasses(Pass(p, false), k - 1);
    }
  }

  function Segments(s: string): (p: Path)
    ensures p != [] && Split(p) && Join(p) == s
    decreases |s|
  {
    if HasRest(s) then
      var rest := Segments(Rest(s));
      assert ([Head(s)] + rest)[1..] == rest;
      [Head(s)] + rest
    else [Head(s)]
  }

  /** Where no two adjacent segments are both `.claude`, or where at most one `worktrees` segment more than the count
      has something after it, the bounded passes end at a path that has no worktree segment left, got from the
      original by deleting worktree triples pass by pass. */
  lemma StripReachesFixpoint(path: string)
    requires NoDoubled(Segments(path)) || Trees(Segments(path)) <= Count(path) + 1
    ensures var q := Passes(Segments(path), Count(path) + 1);
            && Subs(path, Count(path) + 1) == Join(q)
            && forall i :: 0 <= i <= |q| ==> !Triple(q[i..])
  {
    hide Sub;
    hide Subs;
    hide Passes;
    hide Pass;
    hide Count;
    hide Join;
    hide Segments;
    var p, k := Segments(path), Count(path) + 1;
    SubsArePasses(p, k);
    PairsAreCounted(p);
    EnoughPasses(p, k);
    var q := Passes(p, k);
    forall i | 0 <= i <= |q| ensures !Triple(q[i..]) {
      FixpointHasNoTriple(q, i);
    }
  }

  lemma PassesOnlyDrop(p: Path, k: nat)
    ensures forall j :: 0 <= j < k ==> Drops(Passes(p, j), Passes(p, j + 1))
  {
    hide Pass;
    hide Drops;
    forall j | 0 <= j < k ensures Drops(Passes(p, j), Passes(p, j + 1)) {
      OneMorePass(p, j);
      PassDrops(Passes(p, j), false);
    }
  }

  lemma {:induction false} OneMorePass(p: Path, k: nat)
    ensures Passes(p, k + 1) == Pass(Passes(p, k), false)
    decreases k
  {
    hide Pass;
    if k > 0 {
      OneMorePass(Pass(p, false), k - 1);
    }
  }

  // ---------------------------------------------------------------- where the bound is too small

  const NESTED: Path := [CLAUDE, CLAUDE, CLAUDE, TREES, "x", TREES, "y", TREES, "z"]

  lemma {:induction false} PassPlain(p: Path, blocked: bool)
    requires forall i :: 0 <= i < |p| ==> p[i] != CLAUDE
    ensures Pass(p, blocked) == p
  {
    if p != [] {
      PassPlain(p[1..], false);
    }
  }

  lemma PassOver(p: Path)
    requires p == [] || p[0] != TREES
    ensures Pass([CLAUDE] + p, false) == [CLAUDE] + Pass(p, false)
  {
    assert ([CLAUDE] + p)[1..] == p;
  }

  lemma PassDropsFirst(name: string, p: Path)
    requires name != [] && forall i :: 0 <= i < |p| ==> p[i] != CLAUDE
    ensures Pass([CLAUDE, TREES, name] + p, false) == p
  {
    assert ([CLAUDE, TREES, name] + p)[3..] == p;
    PassPlain(p, true);
  }

  lemma PassNested()
    ensures Pass(NESTED, false) == [CLAUDE, CLAUDE, TREES, "y", TREES, "z"]
    ensures Pass([CLAUDE, CLAUDE, TREES, "y", TREES, "z"], false) == [CLAUDE, TREES, "z"]
  {
    var inner: Path := [CLAUDE, TREES, "x"] + [TREES, "y", TREES, "z"];
    PassDropsFirst("x", [TREES, "y", TREES, "z"]);
    PassOver(inner);
    PassOver([CLAUDE] + inner);
    PassDropsFirst("y", [TREES, "z"]);
    PassOver([CLAUDE, TREES, "y"] + [TREES, "z"]);
    hide Pass;
    assert NESTED == [CLAUDE] + ([CLAUDE] + inner);
    assert [CLAUDE, CLAUDE, TREES, "y", TREES, "z"] == [CLAUDE] + ([CLAUDE, TREES, "y"] + [TREES, "z"]);
  }

  lemma {:induction false} NoDotInJoin(p: Path)
    requires forall i :: 0 <= i < |p| ==> '.' !in p[i]
    ensures '.' !in Join(p)
    decreases |p|
  {
    if |p| > 1 {
      NoDotInJoin(p[1..]);
    }
  }

  lemma NeedleOnce(p: Path)
    requires p != [] && forall i :: 0 <= i < |p| ==> '.' !in p[i]
    ensures Count(Join([CLAUDE, TREES] + p)) == 1
  {
    NoDotInJoin(p);
    CountWithoutDot(Join(p), []);
    NeedleCounts(Join(p));
    NeedleIsJoin(p);
    assert Count([]) == 0;
    hide *;
    assert Join(p) + [] == Join(p);
  }

  lemma DoubledCount(p: Path)
    requires |p| > 1 && p[0] == CLAUDE
    ensures Count(Join([CLAUDE] + p)) == Count(Join(p))
  {
    JoinCons(CLAUDE, p);
    assert Join(p)[0] == '.';
    SlashedClaude(Join(p));
  }

  lemma NestedCount()
    ensures Split(NESTED) && Count(Join(NESTED)) == 1
  {
    hide Count;
    hide Join;
    var inner: Path := [CLAUDE, TREES] + ["x", TREES, "y", TREES, "z"];
    NeedleOnce(["x", TREES, "y", TREES, "z"]);
    DoubledCount(inner);
    DoubledCount([CLAUDE] + inner);
    assert NESTED == [CLAUDE] + ([CLAUDE] + inner);
  }

  /** A `.claude/` not followed by `worktrees/` adds nothing to the count. */
  lemma SlashedClaude(rest: string)
    requires rest != [] && rest[0] == '.'
    ensures Count(CLAUDE + "/" + rest) == Count(rest)
  {
    var s := "claude/" + rest;
    assert CLAUDE + "/" + rest == ['.'] + s;
    assert s[7] == '.';
    assert NEEDLE[8] == 'w';
    CountStep('.', s);
    CountWithoutDot("claude/", rest);
  }

  /** Doubled `.claude` segments hide pairs that appear only as inner ones go, so the bound is too small here:
      the result still names a worktree. */
  lemma NestedWorktreeSurvives()
    ensures Split(NESTED) && Count(Join(NESTED)) == 1
    ensures Subs(Join(NESTED), Count(Join(NESTED)) + 1) == Join([CLAUDE, TREES, "z"])
    ensures Triple([CLAUDE, TREES, "z"])
  {
    var twice: Path := [CLAUDE, CLAUDE, TREES, "y", TREES, "z"];
    var once: Path := [CLAUDE, TREES, "z"];
    PassNested();
    NestedCount();
    assert Passes(NESTED, 2) == once by {
      hide Pass;
      assert Passes(NESTED, 2) == Passes(twice, 1) == Passes(once, 0);
    }
    assert Triple(once);
    hide *;
    SubsArePasses(NESTED, 2);
  }
}
