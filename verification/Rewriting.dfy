/**
 * What an account's subject maps mean (src/enterprise/cmq_account.c), token by token and
 * without reference to how the code walks them: a destination says for each token of the
 * result which token of the subject it is.
 */
module Rewriting {
  import opened Common
  import opened Subjects

  /** The stars among the first i tokens. */
  function StarsBefore(ts: seq<string>, i: nat): nat
    requires i <= |ts|
  {
    multiset(ts[..i])["*"]
  }

  /** The token under star number n of a pattern, counted from 0. */
  ghost predicate UnderStar(pt: seq<string>, st: seq<string>, n: int, x: string) {
    exists i :: 0 <= i < |pt| && i < |st| && pt[i] == "*" && StarsBefore(pt, i) == n && st[i] == x
  }

  /** Token j of a destination gives x: $1 to $9 by number, a star by its turn, others themselves. */
  ghost predicate Stands(pt: seq<string>, st: seq<string>, dt: seq<string>, j: nat, x: string)
    requires j < |dt|
  {
    var t := dt[j];
    if |t| == 2 && t[0] == '$' && '1' <= t[1] <= '9' then UnderStar(pt, st, t[1] as int - '1' as int, x)
    else if t == "*" then UnderStar(pt, st, StarsBefore(dt, j), x)
    else x == t
  }

  lemma FirstCounts(ts: seq<string>, i: nat)
    requires 0 < i <= |ts|
    ensures StarsBefore(ts, i) == (if ts[0] == "*" then 1 else 0) + StarsBefore(ts[1..], i - 1)
  {
    assert ts[..i] == [ts[0]] + ts[1..][..i - 1];
  }

  /** Each star has its place. */
  lemma {:induction false} StarAt(pt: seq<string>, n: nat) returns (i: nat)
    requires n < StarsIn(pt)
    ensures i < |pt| && pt[i] == "*" && StarsBefore(pt, i) == n
  {
    if pt[0] == "*" && n == 0 {
      i := 0;
    } else {
      i := StarAt(pt[1..], if pt[0] == "*" then n - 1 else n);
      i := i + 1;
      FirstCounts(pt, i);
    }
  }

  /** The captures are the tokens under the stars, in order. */
  lemma {:induction false} UnderAt(pt: seq<string>, st: seq<string>, i: nat)
    requires i < |pt| && i < |st| && pt[i] == "*"
    ensures StarsBefore(pt, i) < |Under(pt, st)| && Under(pt, st)[StarsBefore(pt, i)] == st[i]
  {
    if i > 0 {
      FirstCounts(pt, i);
      UnderAt(pt[1..], st[1..], i - 1);
    }
  }

  lemma CaptureIsUnder(pt: seq<string>, st: seq<string>, n: nat)
    requires Matches(pt, st) && Shape(pt) && n < |Under(pt, st)|
    ensures UnderStar(pt, st, n, Under(pt, st)[n])
  {
    UnderSize(pt, st);
    var i := StarAt(pt, n);
    assert i < Fixed(pt);
    UnderAt(pt, st, i);
  }

  // ---- the pieces of an expansion, by position ----

  function PieceFor(t: string, stars: seq<string>, k: nat): string {
    if IsRef(t) then (if RefIndex(t) < |stars| then stars[RefIndex(t)] else "")
    else if t == "*" then (if k < |stars| then stars[k] else "")
    else t
  }

  ghost predicate GtLast(dt: seq<string>) {
    forall i :: 0 <= i < |dt| && dt[i] == ">" ==> i == |dt| - 1
  }

  /** The pieces of a destination are those of its tokens, and the text under a final '>'. */
  ghost predicate InPlace(ps: seq<string>, dt: seq<string>, stars: seq<string>, k: nat, gt: string) {
    var m := Fixed(dt);
    && |ps| == m + (if Open(dt) && gt != "" then 1 else 0)
    && (forall j :: 0 <= j < m ==> ps[j] == PieceFor(dt[j], stars, k + StarsBefore(dt, j)))
    && (Open(dt) && gt != "" ==> ps[m] == gt)
  }

  lemma PiecesCons(dt: seq<string>, stars: seq<string>, k: nat, gt: string)
    requires dt != [] && dt[0] != ">"
    ensures var k' := if dt[0] == "*" then k + 1 else k;
            Pieces(dt, stars, k, gt) == [PieceFor(dt[0], stars, k)] + Pieces(dt[1..], stars, k', gt)
  {
  }

  lemma InPlaceCons(ps: seq<string>, dt: seq<string>, stars: seq<string>, k: nat, gt: string)
    requires dt != [] && dt[0] != ">" && InPlace(ps, dt[1..], stars, if dt[0] == "*" then k + 1 else k, gt)
    ensures InPlace([PieceFor(dt[0], stars, k)] + ps, dt, stars, k, gt)
  {
    hide PieceFor, StarsBefore;
    var us, all := dt[1..], [PieceFor(dt[0], stars, k)] + ps;
    assert Open(us) == Open(dt) && Fixed(us) == Fixed(dt) - 1;
    forall j | 0 <= j < Fixed(dt) ensures all[j] == PieceFor(dt[j], stars, k + StarsBefore(dt, j)) {
      if j > 0 {
        FirstCounts(dt, j);
        assert all[j] == ps[j - 1] && us[j - 1] == dt[j];
      } else {
        NoneBefore(dt);
      }
    }
  }

  lemma NoneBefore(ts: seq<string>)
    ensures StarsBefore(ts, 0) == 0
  {
  }

  lemma {:induction false} PiecesAt(dt: seq<string>, stars: seq<string>, k: nat, gt: string)
    requires GtLast(dt)
    ensures InPlace(Pieces(dt, stars, k, gt), dt, stars, k, gt)
    decreases |dt|
  {
    if dt == [] {
    } else if dt[0] == ">" {
      assert dt[1..] == [];
      assert Pieces([], stars, k, gt) == [];
    } else {
      PiecesCons(dt, stars, k, gt);
      hide Pieces, InPlace, PieceFor;
      var us := dt[1..];
      assert forall i :: 0 <= i < |us| ==> us[i] == dt[i + 1];
      var k' := if dt[0] == "*" then k + 1 else k;
      PiecesAt(us, stars, k', gt);
      InPlaceCons(Pieces(us, stars, k', gt), dt, stars, k, gt);
    }
  }

  lemma {:induction false} JoinThen(ts: seq<string>, gt: string)
    requires Tokens(ts)
    ensures Toks(Join(ts + (if gt == "" then [] else [gt]))) == ts + Toks(gt)
  {
    hide Toks, HeadLen;
    var all := ts + (if gt == "" then [] else [gt]);
    if ts == [] {
      NoTokens();
      assert all == if gt == "" then [] else [gt];
    } else {
      OneToken(ts[0]);
      JoinThen(ts[1..], gt);
      assert all[1..] == ts[1..] + (if gt == "" then [] else [gt]);
      assert NoFinalDot(ts[0]);
      if |all| == 1 {
        NoTokens();
        assert gt == "" && ts == [ts[0]];
      } else {
        ToksAppend(ts[0], Join(all[1..]));
        assert [ts[0]] + (ts[1..] + Toks(gt)) == ts + Toks(gt);
      }
    }
  }

  lemma {:induction false} DropToks(s: string, n: nat)
    requires n <= |Toks(s)|
    ensures Toks(Drop(s, n)) == Toks(s)[n..]
    decreases n
  {
    hide HeadLen;
    if n > 0 {
      UnfoldToks(s);
      DropToks(Rest(s), n - 1);
    }
  }

  /** Token j of the expansion stands for what the destination says. */
  lemma PieceStands(pt: seq<string>, st: seq<string>, dt: seq<string>, j: nat)
    requires Matches(pt, st) && Shape(pt) && DestShape(dt, StarsIn(pt), Open(pt)) && j < Fixed(dt)
    ensures var x := PieceFor(dt[j], Under(pt, st), StarsBefore(dt, j)); Stands(pt, st, dt, j, x)
    ensures IsRef(dt[j]) || dt[j] == "*" ==> PieceFor(dt[j], Under(pt, st), StarsBefore(dt, j)) in st
  {
    hide Matches, Shape, UnderStar;
    UnderSize(pt, st);
    if IsRef(dt[j]) {
      CaptureIsUnder(pt, st, RefIndex(dt[j]));
    } else if dt[j] == "*" {
      StarBound(dt, j);
      CaptureIsUnder(pt, st, StarsBefore(dt, j));
    }
  }

  lemma {:induction false} StarBound(dt: seq<string>, j: nat)
    requires j < |dt| && dt[j] == "*"
    ensures StarsBefore(dt, j) < StarsIn(dt)
  {
    if j > 0 {
      FirstCounts(dt, j);
      StarBound(dt[1..], j - 1);
    }
  }

  /** What an accepted map makes of a plain subject that it captures. */
  ghost predicate Renders(pt: seq<string>, st: seq<string>, dt: seq<string>, rt: seq<string>) {
    var m := Fixed(dt);
    && Fixed(pt) <= |st| && |rt| == m + (if Open(dt) then |st| - Fixed(pt) else 0)
    && (forall j :: 0 <= j < m ==> Stands(pt, st, dt, j, rt[j]))
    && (Open(dt) ==> rt[m..] == st[Fixed(pt)..])
  }

  /**
   * The meaning of a map: each token of the destination stands for itself, for the token
   * under the star it numbers, or for the token under the star whose turn it is, and a final
   * '>' for what stands under the '>' of the source.
   */
  lemma MapMeans(src: string, dest: string, input: string)
    requires MapOk(src, dest) && Plain(input) && Catch(src, input, []).Some?
    ensures Renders(Toks(src), Toks(input), Toks(dest), Toks(Expand(dest, Catch(src, input, []).value)))
  {
    hide Catch, Matches, Shape, HeadLen, Toks, Stands, Join, Pieces, Drop, NoFinalDot, Plain, Under, DestToken, StarsIn;
    var pt, dt := Toks(src), Toks(dest);
    CaughtIs(src, input);
    var c := Catch(src, input, []).value;
    GtInSource(pt);
    PiecesAt(dt, c.stars, 0, c.gt);
    var ps, m := Pieces(dt, c.stars, 0, c.gt), Fixed(dt);
    PiecesStand(pt, input, dest, ps);
    var gt := if Open(dt) then c.gt else "";
    assert ps == ps[..m] + (if gt == "" then [] else [gt]);
    JoinThen(ps[..m], gt);
    NoTokens();
    if Open(dt) { DropToks(input, Fixed(pt)); }
  }

  lemma PiecesStand(pt: seq<string>, input: string, dest: string, ps: seq<string>)
    requires Plain(input) && Matches(pt, Toks(input)) && Shape(pt) && DestShape(Toks(dest), StarsIn(pt), Open(pt))
    requires Fixed(Toks(dest)) <= |ps|
    requires forall j :: 0 <= j < Fixed(Toks(dest)) ==>
               ps[j] == PieceFor(Toks(dest)[j], Under(pt, Toks(input)), 0 + StarsBefore(Toks(dest), j))
    ensures Tokens(ps[..Fixed(Toks(dest))])
    ensures forall j :: 0 <= j < Fixed(Toks(dest)) ==> Stands(pt, Toks(input), Toks(dest), j, ps[j])
  {
    hide Matches, Shape, HeadLen, Toks, Stands, Plain, Under, StarsIn, Dotless, StarsBefore, DestToken;
    var st, dt := Toks(input), Toks(dest);
    forall j | 0 <= j < Fixed(dt) ensures Stands(pt, st, dt, j, ps[j]) && ps[j] != "" && Dotless(ps[j]) {
      PieceStands(pt, st, dt, j);
      PieceIsToken(st, dt, j, ps[j], input, dest);
    }
  }

  lemma CaughtIs(src: string, input: string)
    requires Well(src) && Catch(src, input, []).Some?
    ensures var c, pt, st := Catch(src, input, []).value, Toks(src), Toks(input);
            && Matches(pt, st) && Shape(pt) && Fixed(pt) <= |st| && c.stars == Under(pt, st)
            && c.gt == if Open(pt) then Drop(input, Fixed(pt)) else ""
  {
    CatchIs(src, input, []);
    assert [] + Under(Toks(src), Toks(input)) == Under(Toks(src), Toks(input));
  }

  lemma GtInSource(pt: seq<string>)
    requires Shape(pt)
    ensures ">" in pt <==> Open(pt)
  {
  }

  lemma PieceIsToken(st: seq<string>, dt: seq<string>, j: nat, x: string, input: string, dest: string)
    requires st == Toks(input) && Plain(input) && dt == Toks(dest) && j < Fixed(dt) && DestToken(dt[j]) && dt[j] != ">"
    requires if IsRef(dt[j]) || dt[j] == "*" then x in st else x == dt[j]
    ensures x != "" && Dotless(x)
  {
    ToksDotless(input);
    ToksDotless(dest);
  }

  // ---- consequences ----

  lemma {:induction false} JoinToks(s: string)
    requires NoFinalDot(s)
    ensures Join(Toks(s)) == s
    decreases |s|
  {
    hide HeadLen, NoFinalDot;
    if s != "" {
      HeadRest(s);
      JoinToks(Rest(s));
      assert Toks(s)[1..] == Toks(Rest(s));
      if Rest(s) == "" { EmptyToks(Rest(s)); } else { EmptyToks(Rest(s)); }
    }
  }

  /** Stars are told apart by the stars before them. */
  lemma StarsApart(pt: seq<string>, i: nat, j: nat)
    requires i < |pt| && j < |pt| && pt[i] == "*" && pt[j] == "*" && StarsBefore(pt, i) == StarsBefore(pt, j)
    ensures i == j
  {
    if i < j { StarsGrow(pt, i, j); } else if j < i { StarsGrow(pt, j, i); }
  }

  lemma StarsGrow(pt: seq<string>, i: nat, j: nat)
    requires i < j < |pt| && pt[i] == "*"
    ensures StarsBefore(pt, i) < StarsBefore(pt, j)
  {
    assert pt[..j] == pt[..i] + [pt[i]] + pt[i + 1..j];
  }

  lemma UnderIs(pt: seq<string>, st: seq<string>, j: nat, x: string)
    requires j < |pt| && j < |st| && pt[j] == "*" && UnderStar(pt, st, StarsBefore(pt, j), x)
    ensures x == st[j]
  {
    var i :| 0 <= i < |pt| && i < |st| && pt[i] == "*" && StarsBefore(pt, i) == StarsBefore(pt, j) && st[i] == x;
    StarsApart(pt, i, j);
  }

  lemma {:induction false} StarCounts(pt: seq<string>, i: nat)
    requires i < |pt| && pt[i] == "*"
    ensures StarsBefore(pt, i) < StarsIn(pt)
  {
    if i > 0 {
      FirstCounts(pt, i);
      StarCounts(pt[1..], i - 1);
    }
  }

  /** Token j of a pattern is its n-th star. */
  predicate Numbered(pt: seq<string>, j: nat, n: nat)
    requires j < |pt|
  {
    pt[j] == "*" && StarsBefore(pt, j) == n - 1
  }

  lemma ReferenceFits(t: string, n: nat, nstar: nat, hasGt: bool)
    requires 1 <= n <= 9 && t == ['$', '0' + n as char]
    ensures DestOk(t, nstar, hasGt) <==> n <= nstar
  {
    OneToken(t);
    assert NoFinalDot(t) && t != ">" && t != "*" && IsRef(t) && RefIndex(t) == n - 1;
    hide Toks, NoFinalDot, HeadLen, Literal;
    var ts := [t];
    assert forall i :: 0 <= i < |ts| ==> ts[i] == t;
    assert StarsIn(ts) == 0 by { assert ts[1..] == []; }
    if n <= nstar { assert DestShape(ts, nstar, hasGt); } else { assert IsRef(ts[0]) && RefIndex(ts[0]) >= nstar; }
  }

  ghost predicate HasStar(pt: seq<string>, n: nat) { exists j :: 0 <= j < |pt| && Numbered(pt, j, n) }

  lemma StarsEnough(pt: seq<string>, n: nat)
    requires n > 0
    ensures HasStar(pt, n) <==> n <= StarsIn(pt)
  {
    hide StarsBefore;
    if n <= StarsIn(pt) {
      var j := StarAt(pt, n - 1);
      assert Numbered(pt, j, n);
    } else {
      forall j | 0 <= j < |pt| && pt[j] == "*" ensures StarsBefore(pt, j) != n - 1 { StarCounts(pt, j); }
    }
  }

  /** A destination $n is accepted exactly if the source has an n-th star. */
  lemma ReferenceAccepted(src: string, n: nat)
    requires AclOk(src) && 1 <= n <= 9
    ensures MapOk(src, ['$', '0' + n as char]) <==> HasStar(Toks(src), n)
  {
    hide HasStar, AclOk, DestOk, Toks, StarsIn;
    var pt := Toks(src);
    ReferenceFits(['$', '0' + n as char], n, StarsIn(pt), ">" in pt);
    StarsEnough(pt, n);
  }

  /** A destination $n alone gives the token under the n-th star. */
  lemma ReferenceAlone(src: string, n: nat, input: string, j: nat)
    requires 1 <= n <= 9 && Plain(input) && Catch(src, input, []).Some?
    requires var dest := ['$', '0' + n as char]; MapOk(src, dest)
    requires j < |Toks(src)| && Numbered(Toks(src), j, n)
    ensures j < |Toks(input)| && Expand(['$', '0' + n as char], Catch(src, input, []).value) == Toks(input)[j]
  {
    hide Catch, Toks, HeadLen, Join, Plain, StarsBefore;
    var dest, pt, st := ['$', '0' + n as char], Toks(src), Toks(input);
    OneToken(dest);
    CaughtIs(src, input);
    MapMeans(src, dest, input);
    RewriteIsPlain(src, dest, input, 0);
    var e := Expand(dest, Catch(src, input, []).value);
    hide Expand;
    assert Stands(pt, st, Toks(dest), 0, Toks(e)[0]);
    UnderIs(pt, st, j, Toks(e)[0]);
    PlainIsJoin(e);
    assert Toks(e) == [st[j]];
    OneJoined(st[j]);
  }

  lemma OneJoined(t: string)
    ensures Join([t]) == t
  {
  }

  lemma PlainIsJoin(e: string)
    requires e == "" || Plain(e)
    ensures Join(Toks(e)) == e
  {
    JoinToks(e);
  }

  /** A destination that has, in the place of each star of the source, the star again or its number. */
  ghost predicate Mirrors(pt: seq<string>, dt: seq<string>) {
    && |dt| == |pt|
    && forall j :: 0 <= j < |pt| ==>
         if pt[j] == "*" then
           (dt[j] == "*" && StarsBefore(dt, j) == StarsBefore(pt, j)) ||
           (IsRef(dt[j]) && dt[j][1] as int - '1' as int == StarsBefore(pt, j))
         else dt[j] == pt[j] && !IsRef(dt[j])
  }

  /** Such a map gives every subject back that it captures. */
  lemma MirrorGivesBack(src: string, dest: string, input: string)
    requires MapOk(src, dest) && Plain(input) && Catch(src, input, []).Some? && Mirrors(Toks(src), Toks(dest))
    ensures Expand(dest, Catch(src, input, []).value) == input
  {
    hide Catch, Toks, HeadLen, Join, Plain;
    var pt, st, dt := Toks(src), Toks(input), Toks(dest);
    CaughtIs(src, input);
    MapMeans(src, dest, input);
    RewriteIsPlain(src, dest, input, 0);
    var e := Expand(dest, Catch(src, input, []).value);
    hide Expand;
    MirrorTokens(pt, st, dt, Toks(e));
    PlainIsJoin(e);
    PlainIsJoin(input);
  }

  lemma MirrorTokens(pt: seq<string>, st: seq<string>, dt: seq<string>, rt: seq<string>)
    requires Matches(pt, st) && Shape(pt) && Mirrors(pt, dt) && Renders(pt, st, dt, rt)
    ensures rt == st
  {
    hide StarsBefore, UnderStar;
    assert Open(dt) == Open(pt);
    forall j | 0 <= j < Fixed(pt) ensures rt[j] == st[j] {
      assert Stands(pt, st, dt, j, rt[j]);
      if pt[j] == "*" { UnderIs(pt, st, j, rt[j]); }
    }
    assert rt[..Fixed(pt)] == st[..Fixed(pt)];
  }
}
