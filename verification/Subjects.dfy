/**
 * Subjects, patterns and subject maps of the account manager (src/enterprise/cmq_account.c).
 * The code walks characters; here each walk is proved against the tokens between the dots.
 * A pointer into a C string is an index, and what it points at is the suffix from there.
 */
module Subjects {
  import opened Common

  const SUBJECT_SIZE: nat := 256
  const MAP_CAPS: nat := 8

  // ---- tokens ----

  /** The length of the first token: up to the first dot or the end. */
  function HeadLen(s: string): (n: nat)
    ensures n <= |s| && (n < |s| ==> s[n] == '.') && forall i :: 0 <= i < n ==> s[i] != '.'
  {
    if s == "" || s[0] == '.' then 0 else 1 + HeadLen(s[1..])
  }

  function Head(s: string): string { s[..HeadLen(s)] }

  /** What follows the first token and its dot. */
  function Rest(s: string): (r: string)
    ensures |r| < |s| || s == ""
  {
    if HeadLen(s) < |s| then s[HeadLen(s) + 1..] else ""
  }

  /** The tokens of a string; a final dot ends the last token and starts none. */
  function Toks(s: string): seq<string>
    decreases |s|
  {
    if s == "" then [] else [Head(s)] + Toks(Rest(s))
  }

  function Join(ts: seq<string>): string {
    if ts == [] then "" else if |ts| == 1 then ts[0] else ts[0] + "." + Join(ts[1..])
  }

  predicate NoFinalDot(s: string) { s == "" || s[|s| - 1] != '.' }

  predicate Dotless(t: string) { forall i :: 0 <= i < |t| ==> t[i] != '.' }

  predicate Tokens(ts: seq<string>) {
    forall i :: 0 <= i < |ts| ==> ts[i] != "" && Dotless(ts[i])
  }

  lemma SplitAt(s: string, n: nat)
    requires n < |s| && s[n] == '.'
    ensures s == s[..n] + "." + s[n + 1..]
    ensures NoFinalDot(s) ==> s[n + 1..] != "" && NoFinalDot(s[n + 1..])
  {
    var r := s[n + 1..];
    assert r != "" ==> r[|r| - 1] == s[|s| - 1];
  }

  lemma HeadRest(s: string)
    requires s != ""
    ensures s == if HeadLen(s) < |s| then Head(s) + "." + Rest(s) else Head(s)
    ensures NoFinalDot(s) ==> NoFinalDot(Rest(s)) && (HeadLen(s) < |s| <==> Rest(s) != "")
  {
    var n := HeadLen(s);
    hide HeadLen, NoFinalDot;
    if n < |s| {
      SplitAt(s, n);
    } else {
      assert s[..n] == s;
      assert NoFinalDot("") by { EmptyNoDot(); }
    }
  }

  lemma EmptyNoDot()
    ensures NoFinalDot("")
  {
  }

  lemma HeadOfToken(t: string, u: string)
    requires Dotless(t)
    ensures HeadLen(t) == |t| && HeadLen(t + "." + u) == |t|
  {
    var s := t + "." + u;
    assert s[|t|] == '.';
    assert forall i :: 0 <= i < |t| ==> s[i] == t[i];
  }

  lemma {:induction false} ToksDotless(s: string)
    ensures forall i :: 0 <= i < |Toks(s)| ==> Dotless(Toks(s)[i])
    decreases |s|
  {
    if s != "" { ToksDotless(Rest(s)); }
  }

  // ---- well-formed patterns and plain subjects ----

  /** Wildcards must be whole tokens. */
  predicate GoodToken(t: string) {
    t != "" && ('>' in t ==> t == ">") && ('*' in t ==> t == "*")
  }

  predicate Shape(ts: seq<string>) {
    forall i :: 0 <= i < |ts| ==> GoodToken(ts[i]) && (ts[i] == ">" ==> i == |ts| - 1)
  }

  /** Non-empty tokens, wildcards whole, '>' only at the end. */
  predicate Well(s: string) { s != "" && NoFinalDot(s) && Shape(Toks(s)) }

  predicate AclOk(s: string) { Well(s) && |s| < SUBJECT_SIZE }

  predicate PlainToken(t: string) { t != "" && '>' !in t && '*' !in t }

  /** A well-formed subject without wildcards. */
  predicate Plain(s: string) {
    s != "" && NoFinalDot(s) && forall i :: 0 <= i < |Toks(s)| ==> PlainToken(Toks(s)[i])
  }

  // ---- the meaning of a pattern ----

  predicate Open(pt: seq<string>) { pt != [] && pt[|pt| - 1] == ">" }
  function Fixed(pt: seq<string>): nat { if Open(pt) then |pt| - 1 else |pt| }

  /** '*' stands for one token, a final '>' for any number of them, none included. */
  predicate Matches(pt: seq<string>, st: seq<string>) {
    && (if Open(pt) then |st| >= Fixed(pt) else |st| == Fixed(pt))
    && forall i :: 0 <= i < Fixed(pt) && i < |st| ==> pt[i] == "*" || pt[i] == st[i]
  }

  lemma MatchesStep(pt: seq<string>, st: seq<string>)
    requires pt != [] && st != [] && (pt[0] == ">" ==> |pt| > 1)
    ensures Matches(pt, st) <==> (pt[0] == "*" || pt[0] == st[0]) && Matches(pt[1..], st[1..])
  {
    var a, b := pt[1..], st[1..];
    assert Open(a) == Open(pt);
    if Matches(pt, st) {
      assert forall i :: 0 <= i < Fixed(a) && i < |b| ==> a[i] == pt[i + 1] && b[i] == st[i + 1];
    }
    if (pt[0] == "*" || pt[0] == st[0]) && Matches(a, b) {
      forall i | 0 <= i < Fixed(pt) && i < |st| ensures pt[i] == "*" || pt[i] == st[i] {
        if i > 0 { assert pt[i] == a[i - 1] && st[i] == b[i - 1]; }
      }
    }
  }

  /** The token walk of subject_match from two positions on. */
  predicate Walk(p: string, s: string)
    decreases |p|
  {
    if p == "" || s == "" then p == ">" || (p == "" && s == "")
    else if Head(p) == ">" then p == ">"
    else (Head(p) == "*" || Head(p) == Head(s)) && Walk(Rest(p), Rest(s))
  }

  lemma ShapeTail(ts: seq<string>)
    requires Shape(ts) && ts != []
    ensures Shape(ts[1..]) && GoodToken(ts[0]) && (ts[0] == ">" ==> ts[1..] == [])
  {
    hide GoodToken;
    var us := ts[1..];
    assert forall i :: 0 <= i < |us| ==> us[i] == ts[i + 1];
  }

  lemma ShapeRest(p: string)
    requires Well(p)
    ensures Toks(p) == [Head(p)] + Toks(Rest(p)) && (Rest(p) == "" || Well(Rest(p)))
    ensures Head(p) == ">" <==> p == ">"
  {
    hide Shape, GoodToken, HeadLen, NoFinalDot;
    HeadRest(p);
    var ts, us := Toks(p), Toks(Rest(p));
    assert ts == [Head(p)] + us;
    ShapeTail(ts);
    assert ts[1..] == us;
    EmptyToks(Rest(p));
    if p == ">" { HeadOfToken(p, ""); }
  }

  lemma EmptyToks(s: string)
    ensures Toks(s) == [] <==> s == ""
  {
  }

  /** For a well-formed pattern the walk decides exactly what the pattern means. */
  lemma {:induction false} WalkIsMatch(p: string, s: string)
    requires p == "" || Well(p)
    ensures Walk(p, s) <==> Matches(Toks(p), Toks(s))
    decreases |p|
  {
    if p == "" || s == "" {
      if p != "" {
        ShapeRest(p);
        if p == ">" { assert Toks(p) == [">"]; }
        else { NotJustGt(p); }
      }
    } else {
      ShapeRest(p);
      if p == ">" {
        assert Toks(p) == [">"];
      } else {
        WalkIsMatch(Rest(p), Rest(s));
        MatchesStep(Toks(p), Toks(s));
        assert Toks(p)[1..] == Toks(Rest(p)) && Toks(s)[1..] == Toks(Rest(s));
      }
    }
  }

  /** A pattern other than '>' needs a token. */
  lemma NotJustGt(p: string)
    requires Well(p) && p != ">"
    ensures !Matches(Toks(p), [])
  {
    ShapeRest(p);
    assert Toks(p)[0] == Head(p) != ">";
  }

  /** What subject_match answers, for any two strings. */
  predicate Match(p: string, s: string) { p == ">" || p == s || Walk(p, s) }

  lemma MatchesSelf(pt: seq<string>)
    ensures Matches(pt, pt)
  {
  }

  /** For a well-formed pattern the two shortcuts change nothing. */
  lemma MatchMeans(p: string, s: string)
    requires Well(p)
    ensures Match(p, s) <==> Matches(Toks(p), Toks(s))
  {
    WalkIsMatch(p, s);
    MatchesSelf(Toks(p));
    if p == ">" {
      ShapeRest(p);
      assert Toks(p) == [">"];
    }
  }

  // ---- walking characters ----

  /** The inner loop of every walk: to the next dot or the end. */
  method TokenEnd(s: string, p: nat) returns (pe: nat)
    requires p <= |s|
    ensures p <= pe <= |s| && pe == p + HeadLen(s[p..])
    ensures s[p..pe] == Head(s[p..]) && (pe == |s| <==> HeadLen(s[p..]) == |s| - p)
  {
    pe := p;
    while pe < |s| && s[pe] != '.'
      invariant p <= pe <= |s|
      invariant forall i :: p <= i < pe ==> s[i] != '.'
    {
      pe := pe + 1;
    }
    FirstDot(s[p..], pe - p);
  }

  lemma FirstDot(s: string, n: nat)
    requires n <= |s| && (n < |s| ==> s[n] == '.') && forall i :: 0 <= i < n ==> s[i] != '.'
    ensures n == HeadLen(s)
  {
  }

  /** Past the token and its dot. */
  function Next(s: string, pe: nat): nat { if pe < |s| then pe + 1 else pe }

  lemma NextIsRest(s: string, p: nat, pe: nat)
    requires p <= pe <= |s| && pe == p + HeadLen(s[p..])
    ensures Next(s, pe) <= |s| && s[Next(s, pe)..] == Rest(s[p..])
    ensures p < |s| ==> Next(s, pe) > p
  {
    hide HeadLen;
    var u := s[p..];
    if pe < |s| { assert s[pe + 1..] == u[pe - p + 1..]; } else { assert s[pe..] == ""; }
    assert p < |s| && pe == p ==> pe < |s|;
  }

  /** subject_match. */
  method SubjectMatch(pattern: string, subject: string) returns (r: bool)
    ensures r <==> Match(pattern, subject)
    ensures Well(pattern) ==> (r <==> Matches(Toks(pattern), Toks(subject)))
  {
    hide Matches, Toks, HeadLen, Shape;
    if Well(pattern) { MatchMeans(pattern, subject); }
    if pattern == ">" || pattern == subject { return true; }
    r := WalkTokens(pattern, subject);
  }

  method WalkTokens(pattern: string, subject: string) returns (r: bool)
    ensures r <==> Walk(pattern, subject)
  {
    hide HeadLen, Rest;
    var p: nat, s: nat := 0, 0;
    assert pattern[0..] == pattern && subject[0..] == subject;
    while p < |pattern| && s < |subject|
      invariant p <= |pattern| && s <= |subject|
      invariant Walk(pattern, subject) == Walk(pattern[p..], subject[s..])
      decreases |pattern| - p
    {
      var pe := TokenEnd(pattern, p);
      var se := TokenEnd(subject, s);
      NextIsRest(pattern, p, pe);
      NextIsRest(subject, s, se);
      if pattern[p..pe] == ">" {
        assert pe == |pattern| ==> pattern[p..] == ">";
        assert pattern[p..] == ">" ==> |pattern[p..]| == 1;
        return pe == |pattern|;
      }
      if pattern[p..pe] != "*" && pattern[p..pe] != subject[s..se] { return false; }
      p := Next(pattern, pe);
      s := Next(subject, se);
    }
    assert p == |pattern| <==> pattern[p..] == "";
    assert s == |subject| <==> subject[s..] == "";
    return pattern[p..] == ">" || (p == |pattern| && s == |subject|);
  }

  /** The tokens from a position on are acceptable in a pattern. */
  predicate AclRest(s: string)
    decreases |s|
  {
    s == "" || (GoodToken(Head(s)) && (Head(s) == ">" ==> HeadLen(s) == |s|) && AclRest(Rest(s)))
  }

  lemma {:induction false} AclRestIsShape(s: string)
    requires NoFinalDot(s)
    ensures AclRest(s) <==> Shape(Toks(s))
    decreases |s|
  {
    hide HeadLen, GoodToken, Shape, NoFinalDot;
    if s == "" {
      NoTokens();
    } else {
      HeadRest(s);
      AclRestIsShape(Rest(s));
      EmptyToks(Rest(s));
      assert Toks(s) == [Head(s)] + Toks(Rest(s));
      ShapeCons(Head(s), Toks(Rest(s)));
    }
  }

  lemma NoTokens()
    ensures Toks("") == [] && Shape([])
  {
  }

  lemma ShapeCons(t: string, us: seq<string>)
    ensures Shape([t] + us) <==> GoodToken(t) && (t == ">" ==> us == []) && Shape(us)
  {
    hide GoodToken;
    var ts := [t] + us;
    assert ts[1..] == us;
    if Shape(ts) { ShapeTail(ts); }
  }

  method Contains(s: string, lo: nat, hi: nat, c: char) returns (r: bool)
    requires lo <= hi <= |s|
    ensures r <==> c in s[lo..hi]
  {
    var i := lo;
    while i < hi
      invariant lo <= i <= hi && forall j :: lo <= j < i ==> s[j] != c
    {
      if s[i] == c {
        assert s[lo..hi][i - lo] == c;
        return true;
      }
      i := i + 1;
    }
    return false;
  }

  /** acl_subject_ok: exactly the well-formed patterns shorter than the field. */
  method AclSubjectOk(s: string) returns (r: bool)
    ensures r <==> AclOk(s)
  {
    if |s| == 0 || |s| >= SUBJECT_SIZE || s[|s| - 1] == '.' { return false; }
    if s[0] == '.' {
      assert Toks(s)[0] == "";
      return false;
    }
    AclRestIsShape(s);
    hide HeadLen, Rest, GoodToken, Shape, Toks;
    var p: nat := 0;
    assert s[0..] == s;
    while p < |s|
      invariant p <= |s| && AclRest(s) == AclRest(s[p..])
    {
      var pe := TokenEnd(s, p);
      NextIsRest(s, p, pe);
      var ok := GoodTokenAt(s, p, pe);
      if !ok { return false; }
      if s[p..pe] == ">" && pe < |s| { return false; }
      p := Next(s, pe);
    }
    return true;
  }

  method GoodTokenAt(s: string, p: nat, pe: nat) returns (ok: bool)
    requires p <= pe <= |s|
    ensures ok <==> GoodToken(s[p..pe])
  {
    if pe == p { return false; }
    var isGt := pe - p == 1 && s[p] == '>';
    var isStar := pe - p == 1 && s[p] == '*';
    var gt := Contains(s, p, pe, '>');
    var star := Contains(s, p, pe, '*');
    assert isGt <==> s[p..pe] == ">";
    assert isStar <==> s[p..pe] == "*";
    return !(!isGt && gt) && !(!isStar && star);
  }

  // ---- captures ----

  /** What a match captures: the tokens under the stars, and the text under a final '>'. */
  datatype Caught = Caught(stars: seq<string>, gt: string)

  /** The walk of match_capture from two positions on. */
  function Catch(p: string, s: string, stars: seq<string>): Option<Caught>
    decreases |p|
  {
    if p == "" || s == "" then
      if p == ">" then Some(Caught(stars, s))
      else if p == "" && s == "" then Some(Caught(stars, ""))
      else None
    else if Head(p) == ">" then
      if p == ">" then Some(Caught(stars, s)) else None
    else if Head(p) == "*" then
      if |stars| >= MAP_CAPS then None else Catch(Rest(p), Rest(s), stars + [Head(s)])
    else if Head(p) == Head(s) then Catch(Rest(p), Rest(s), stars)
    else None
  }

  function StarsIn(pt: seq<string>): nat {
    if pt == [] then 0 else (if pt[0] == "*" then 1 else 0) + StarsIn(pt[1..])
  }

  /** The tokens of a subject that stand under the stars of a pattern. */
  function Under(pt: seq<string>, st: seq<string>): seq<string> {
    if pt == [] || st == [] then []
    else (if pt[0] == "*" then [st[0]] else []) + Under(pt[1..], st[1..])
  }

  /** The text after the first n tokens. */
  function Drop(s: string, n: nat): string
    decreases n
  {
    if n == 0 then s else Drop(Rest(s), n - 1)
  }

  function Caps(p: string, s: string): Caught {
    Caught(Under(Toks(p), Toks(s)), if Open(Toks(p)) then Drop(s, Fixed(Toks(p))) else "")
  }

  /**
   * Capture is exact for a well-formed pattern: it succeeds when the pattern matches and has
   * stars for no more than the slots left, and then it has the tokens under the stars and
   * the text under the '>'.
   */
  lemma {:induction false} CatchIs(p: string, s: string, stars: seq<string>)
    requires (p == "" || Well(p)) && |stars| <= MAP_CAPS
    ensures Catch(p, s, stars) ==
            if Matches(Toks(p), Toks(s)) && |stars| + StarsIn(Toks(p)) <= MAP_CAPS
            then Some(Caught(stars + Caps(p, s).stars, Caps(p, s).gt)) else None
    decreases |p|
  {
    if p == "" || p == ">" || s == "" {
      CatchEnd(p, s, stars);
    } else {
      hide HeadLen, Shape, NoFinalDot, Matches, Under, Drop, Toks, StarsIn, Caps;
      ShapeRest(p);
      CatchStep(p, s);
      if Head(p) == "*" {
        if |stars| < MAP_CAPS {
          CatchIs(Rest(p), Rest(s), stars + [Head(s)]);
          Regroup(stars, Head(s), Caps(Rest(p), Rest(s)).stars);
        }
      } else {
        CatchIs(Rest(p), Rest(s), stars);
        assert [] + Caps(Rest(p), Rest(s)).stars == Caps(Rest(p), Rest(s)).stars;
      }
    }
  }

  lemma Regroup(a: seq<string>, x: string, b: seq<string>)
    ensures (a + [x]) + b == a + ([x] + b)
  {
  }

  /** Where one of the two is at its end, or only '>' is left. */
  lemma CatchEnd(p: string, s: string, stars: seq<string>)
    requires (p == "" || Well(p)) && |stars| <= MAP_CAPS && (p == "" || p == ">" || s == "")
    ensures Catch(p, s, stars) ==
            if Matches(Toks(p), Toks(s)) && |stars| + StarsIn(Toks(p)) <= MAP_CAPS
            then Some(Caught(stars + Caps(p, s).stars, Caps(p, s).gt)) else None
  {
    assert stars + [] == stars;
    if p == "" {
      EmptyToks(s);
    } else if p == ">" {
      ShapeRest(p);
      GtAlone(s);
    } else {
      NotJustGt(p);
    }
  }

  lemma GtAlone(s: string)
    ensures Toks(">") == [">"] && Head(">") == ">" && Matches([">"], Toks(s)) && StarsIn([">"]) == 0 &&
            Under([">"], Toks(s)) == []
    ensures Caps(">", s) == Caught([], s)
  {
    OneToken(">");
    assert [">"][1..] == [];
  }

  lemma OneToken(t: string)
    requires t != "" && Dotless(t)
    ensures Toks(t) == [t] && Head(t) == t
  {
    HeadOfToken(t, "");
    assert t[..|t|] == t;
    assert Rest(t) == "" && Toks("") == [];
  }

  lemma CatchStep(p: string, s: string)
    requires Well(p) && p != ">" && s != ""
    ensures StarsIn(Toks(p)) == (if Head(p) == "*" then 1 else 0) + StarsIn(Toks(Rest(p)))
    ensures Caps(p, s).stars == (if Head(p) == "*" then [Head(s)] else []) + Caps(Rest(p), Rest(s)).stars
    ensures Caps(p, s).gt == Caps(Rest(p), Rest(s)).gt
    ensures Matches(Toks(p), Toks(s)) <==>
            (Head(p) == "*" || Head(p) == Head(s)) && Matches(Toks(Rest(p)), Toks(Rest(s)))
  {
    hide HeadLen, Shape, NoFinalDot, Rest, Matches;
    ShapeRest(p);
    var pt, st := Toks(p), Toks(s);
    assert pt[1..] == Toks(Rest(p)) && st[1..] == Toks(Rest(s)) && pt[0] == Head(p) && st[0] == Head(s);
    assert Open(pt) == Open(pt[1..]);
    MatchesStep(pt, st);
  }

  /** match_capture: the slots of `stars` are as many as MAP_CAPS. */
  method MatchCapture(pattern: string, subject: string) returns (r: Option<Caught>)
    ensures r == Catch(pattern, subject, [])
  {
    hide HeadLen, Rest;
    var p: nat, s: nat, stars: seq<string> := 0, 0, [];
    assert pattern[0..] == pattern && subject[0..] == subject;
    while p < |pattern| && s < |subject|
      invariant p <= |pattern| && s <= |subject|
      invariant Catch(pattern, subject, []) == Catch(pattern[p..], subject[s..], stars)
      decreases |pattern| - p
    {
      var pe := TokenEnd(pattern, p);
      var se := TokenEnd(subject, s);
      NextIsRest(pattern, p, pe);
      NextIsRest(subject, s, se);
      if pattern[p..pe] == ">" {
        assert pe == |pattern| ==> pattern[p..] == ">";
        assert pattern[p..] == ">" ==> |pattern[p..]| == 1;
        return if pe == |pattern| then Some(Caught(stars, subject[s..])) else None;
      }
      if pattern[p..pe] == "*" {
        if |stars| >= MAP_CAPS { return None; }
        stars := stars + [subject[s..se]];
      } else if pattern[p..pe] != subject[s..se] {
        return None;
      }
      p := Next(pattern, pe);
      s := Next(subject, se);
    }
    assert p == |pattern| <==> pattern[p..] == "";
    assert s == |subject| <==> subject[s..] == "";
    if pattern[p..] == ">" { return Some(Caught(stars, subject[s..])); }
    return if p == |pattern| && s == |subject| then Some(Caught(stars, "")) else None;
  }

  /** For well-formed patterns with at most MAP_CAPS stars, capture succeeds exactly on a match. */
  lemma CaptureIffMatch(p: string, s: string)
    requires Well(p) && StarsIn(Toks(p)) <= MAP_CAPS
    ensures Catch(p, s, []).Some? <==> Match(p, s)
    ensures Match(p, s) ==> Catch(p, s, []) == Some(Caps(p, s))
  {
    hide Match, Matches, Catch, Well;
    CatchIs(p, s, []);
    MatchMeans(p, s);
    assert [] + Caps(p, s).stars == Caps(p, s).stars;
  }

  /** And with more stars than that it never succeeds: such a map rewrites nothing. */
  lemma TooManyStars(p: string, s: string)
    requires Well(p) && StarsIn(Toks(p)) > MAP_CAPS
    ensures Catch(p, s, []) == None
  {
    CatchIs(p, s, []);
  }

  // ---- destinations ----

  /** $1 to $9. */
  predicate IsRef(t: string) { |t| == 2 && t[0] == '$' && '1' <= t[1] <= '9' }

  function RefIndex(t: string): nat
    requires IsRef(t)
  {
    t[1] as int - '1' as int
  }

  predicate Literal(t: string) { t != "" && '>' !in t && '*' !in t && '$' !in t }

  predicate DestToken(t: string) { t == ">" || t == "*" || IsRef(t) || Literal(t) }

  /** Tokens a map's destination may have, for a source with these wildcards. */
  predicate DestShape(ts: seq<string>, nstar: nat, hasGt: bool) {
    && (forall i :: 0 <= i < |ts| ==> DestToken(ts[i]))
    && (forall i :: 0 <= i < |ts| && ts[i] == ">" ==> i == |ts| - 1 && hasGt)
    && (forall i :: 0 <= i < |ts| && IsRef(ts[i]) ==> RefIndex(ts[i]) < nstar)
    && StarsIn(ts) <= nstar
  }

  predicate DestOk(d: string, nstar: nat, hasGt: bool) {
    0 < |d| < SUBJECT_SIZE && NoFinalDot(d) && DestShape(Toks(d), nstar, hasGt)
  }

  /** What a destination expands to, piece by piece; a '>' that captured nothing gives none. */
  function Pieces(dt: seq<string>, stars: seq<string>, k: nat, gt: string): seq<string> {
    if dt == [] then []
    else if IsRef(dt[0]) then
      [if RefIndex(dt[0]) < |stars| then stars[RefIndex(dt[0])] else ""] + Pieces(dt[1..], stars, k, gt)
    else if dt[0] == "*" then
      [if k < |stars| then stars[k] else ""] + Pieces(dt[1..], stars, k + 1, gt)
    else if dt[0] == ">" then
      (if gt == "" then [] else [gt]) + Pieces(dt[1..], stars, k, gt)
    else [dt[0]] + Pieces(dt[1..], stars, k, gt)
  }

  /** Every reference of a destination has a capture. */
  predicate RefsOk(dt: seq<string>, n: nat, k: nat) {
    if dt == [] then true
    else if IsRef(dt[0]) then RefIndex(dt[0]) < n && RefsOk(dt[1..], n, k)
    else if dt[0] == "*" then k < n && RefsOk(dt[1..], n, k + 1)
    else RefsOk(dt[1..], n, k)
  }

  function Expand(d: string, c: Caught): string { Join(Pieces(Toks(d), c.stars, 0, c.gt)) }

  /** What apply_dest comes to for a buffer of this size. */
  function Applied(d: string, c: Caught, cap: nat): Option<string> {
    if RefsOk(Toks(d), |c.stars|, 0) && 0 < |Expand(d, c)| < cap then Some(Expand(d, c)) else None
  }

  lemma {:induction false} JoinSnoc(ts: seq<string>, t: string)
    ensures Join(ts + [t]) == if ts == [] then t else Join(ts) + "." + t
  {
    if ts == [] {
      assert ts + [t] == [t];
    } else {
      assert (ts + [t])[1..] == ts[1..] + [t];
      JoinSnoc(ts[1..], t);
      if |ts| == 1 { assert ts[1..] == []; }
      else { assert ts[0] + "." + (Join(ts[1..]) + "." + t) == (ts[0] + "." + Join(ts[1..])) + "." + t; }
    }
  }

  lemma {:induction false} JoinGrows(a: seq<string>, b: seq<string>)
    ensures |Join(a)| <= |Join(a + b)|
    decreases |b|
  {
    if b == [] {
      assert a + b == a;
    } else {
      JoinSnoc(a, b[0]);
      JoinGrows(a + [b[0]], b[1..]);
      assert (a + [b[0]]) + b[1..] == a + b;
      if a == [] { assert Join(a) == ""; }
    }
  }

  // ---- apply_dest ----

  /** What one token of a destination adds: nothing, a piece, or a failed reference. */
  datatype Added = Skip | Add(piece: string) | BadRef

  function AddedBy(t: string, stars: seq<string>, k: nat, gt: string): Added {
    if IsRef(t) then if RefIndex(t) < |stars| then Add(stars[RefIndex(t)]) else BadRef
    else if t == "*" then if k < |stars| then Add(stars[k]) else BadRef
    else if t == ">" then if gt == "" then Skip else Add(gt)
    else Add(t)
  }

  lemma PiecesStep(dt: seq<string>, stars: seq<string>, k: nat, gt: string)
    requires dt != []
    ensures var a := AddedBy(dt[0], stars, k, gt);
            var k' := if dt[0] == "*" then k + 1 else k;
            && (a.BadRef? ==> !RefsOk(dt, |stars|, k))
            && (!a.BadRef? ==> RefsOk(dt, |stars|, k) == RefsOk(dt[1..], |stars|, k'))
            && (!a.BadRef? ==>
                  Pieces(dt, stars, k, gt) == (if a.Add? then [a.piece] else []) + Pieces(dt[1..], stars, k', gt))
  {
  }

  /** Append one piece, behind a dot unless it is the first; overflow writes nothing of use. */
  method Append(out: array<char>, o: nat, first: bool, piece: string) returns (ok: bool, n: nat)
    requires o <= out.Length
    modifies out
    ensures ok <==> o + (if first then 0 else 1) + |piece| < out.Length
    ensures ok ==> n == o + (if first then 0 else 1) + |piece|
    ensures ok ==> out[..n] == old(out[..o]) + (if first then "" else ".") + piece
  {
    n := o;
    if !first {
      if n + 1 >= out.Length { return false, n; }
      out[n] := '.';
      n := n + 1;
    }
    if n + |piece| >= out.Length { return false, n; }
    forall i | 0 <= i < |piece| { out[n + i] := piece[i]; }
    n := n + |piece|;
    ok := true;
    assert out[n - |piece|..n] == piece;
  }

  /** apply_dest into a buffer: the expansion and its terminator, or a refusal. */
  method ApplyDest(dest: string, c: Caught, out: array<char>) returns (r: Option<nat>)
    modifies out
    ensures r.Some? <==> Applied(dest, c, out.Length).Some?
    ensures r.Some? ==>
              r.value < out.Length && out[r.value] == '\0' && Applied(dest, c, out.Length) == Some(out[..r.value])
  {
    hide HeadLen, Rest, Pieces, RefsOk, Join, IsRef;
    var o: nat, k: nat, first, d: nat := 0, 0, true, 0;
    ghost var done: seq<string> := [];
    ghost var all := Pieces(Toks(dest), c.stars, 0, c.gt);
    assert dest[0..] == dest && done + all == all;
    assert out[..0] == Join([]) by { EmptyJoin(); }
    while d < |dest|
      invariant d <= |dest| && o <= out.Length && (first <==> done == []) && (first ==> o == 0) &&
                (!first ==> o < out.Length)
      invariant all == done + Pieces(Toks(dest[d..]), c.stars, k, c.gt)
      invariant RefsOk(Toks(dest), |c.stars|, 0) == RefsOk(Toks(dest[d..]), |c.stars|, k)
      invariant out[..o] == Join(done)
    {
      var de := TokenEnd(dest, d);
      NextIsRest(dest, d, de);
      var t := dest[d..de];
      PiecesStep(Toks(dest[d..]), c.stars, k, c.gt);
      assert Toks(dest[d..])[0] == t && Toks(dest[d..])[1..] == Toks(dest[Next(dest, de)..]);
      var a := AddedBy(t, c.stars, k, c.gt);
      if a.BadRef? { return None; }
      if a.Add? {
        JoinSnoc(done, a.piece);
        ghost var rest := Pieces(Toks(dest[Next(dest, de)..]), c.stars, if t == "*" then k + 1 else k, c.gt);
        assert all == (done + [a.piece]) + rest;
        JoinGrows(done + [a.piece], rest);
        var ok;
        ok, o := Append(out, o, first, a.piece);
        if !ok { return None; }
        first, done := false, done + [a.piece];
      }
      if t == "*" { k := k + 1; }
      d := Next(dest, de);
    }
    assert dest[d..] == "";
    EmptyPieces(c.stars, k, c.gt);
    assert all == done;
    if o == 0 || o >= out.Length { return None; }
    ghost var text := out[..o];
    out[o] := '\0';
    assert out[..o] == text;
    return Some(o);
  }

  lemma EmptyJoin()
    ensures Join([]) == ""
  {
  }

  lemma EmptyPieces(stars: seq<string>, k: nat, gt: string)
    ensures Pieces(Toks(""), stars, k, gt) == [] && RefsOk(Toks(""), |stars|, k)
  {
  }

  // ---- validating a map ----

  lemma {:induction false} StarsInSnoc(ts: seq<string>, t: string)
    ensures StarsIn(ts + [t]) == StarsIn(ts) + if t == "*" then 1 else 0
  {
    if ts == [] {
      assert ts + [t] == [t];
    } else {
      assert (ts + [t])[1..] == ts[1..] + [t];
      StarsInSnoc(ts[1..], t);
    }
  }

  /** Tokens read so far and tokens still to come. */
  ghost predicate At(s: string, p: nat, i: nat) {
    p <= |s| && i <= |Toks(s)| && Toks(s)[i..] == Toks(s[p..])
  }

  lemma AtStart(s: string)
    ensures At(s, 0, 0)
  {
    assert s[0..] == s && Toks(s)[0..] == Toks(s);
  }

  lemma AtNext(s: string, p: nat, pe: nat, i: nat)
    requires At(s, p, i) && p < |s| && pe == p + HeadLen(s[p..]) <= |s|
    ensures i < |Toks(s)| && Toks(s)[i] == Head(s[p..]) && At(s, Next(s, pe), i + 1)
    ensures NoFinalDot(s) ==> (pe == |s| <==> i == |Toks(s)| - 1)
  {
    hide HeadLen, NoFinalDot;
    NextIsRest(s, p, pe);
    var ts, us := Toks(s), Toks(s[p..]);
    assert us == [Head(s[p..])] + Toks(Rest(s[p..]));
    assert ts[i] == us[0];
    assert ts[i + 1..] == us[1..];
    if NoFinalDot(s) {
      assert NoFinalDot(s[p..]) by { SuffixNoDot(s, p); }
      HeadRest(s[p..]);
      EmptyToks(Rest(s[p..]));
    }
  }

  lemma SuffixNoDot(s: string, p: nat)
    requires NoFinalDot(s) && p <= |s|
    ensures NoFinalDot(s[p..])
  {
  }

  lemma AtEnd(s: string, i: nat)
    requires At(s, |s|, i)
    ensures i == |Toks(s)|
  {
    assert s[|s|..] == "";
  }

  /** count_src_wildcards. */
  method CountSrcWildcards(src: string) returns (nstar: nat, hasGt: bool)
    ensures nstar == StarsIn(Toks(src)) && (hasGt <==> ">" in Toks(src))
  {
    hide HeadLen, Toks, StarsIn;
    nstar, hasGt := 0, false;
    var p: nat := 0;
    ghost var i: nat := 0;
    ghost var ts := Toks(src);
    AtStart(src);
    assert ts[..0] == [] && StarsIn([]) == 0 by { NoStars(); }
    while p < |src|
      invariant At(src, p, i) && nstar == StarsIn(ts[..i]) && (hasGt <==> ">" in ts[..i])
      decreases |src| - p
    {
      var pe := TokenEnd(src, p);
      AtNext(src, p, pe, i);
      NextIsRest(src, p, pe);
      StarsInSnoc(ts[..i], ts[i]);
      assert ts[..i + 1] == ts[..i] + [ts[i]];
      if src[p..pe] == "*" { nstar := nstar + 1; }
      if src[p..pe] == ">" { hasGt := true; }
      p, i := Next(src, pe), i + 1;
    }
    AtEnd(src, i);
    assert ts[..i] == ts;
  }

  lemma NoStars()
    ensures StarsIn([]) == 0
  {
  }

  method DestTokenAt(s: string, p: nat, pe: nat) returns (ok: bool)
    requires p <= pe <= |s|
    ensures ok <==> DestToken(s[p..pe])
  {
    var t := s[p..pe];
    if |t| == 0 { return false; }
    var gt := Contains(s, p, pe, '>');
    var star := Contains(s, p, pe, '*');
    var dollar := Contains(s, p, pe, '$');
    ok := t == ">" || t == "*" || IsRef(t) || !(gt || star || dollar);
  }

  /** The tokens checked so far, with their stars and their largest reference. */
  ghost predicate Checked(ts: seq<string>, i: nat, hasGt: bool, stars: nat, maxRef: nat)
    requires i <= |ts|
  {
    && (forall j :: 0 <= j < i ==> DestToken(ts[j]))
    && (forall j :: 0 <= j < i && ts[j] == ">" ==> j == |ts| - 1 && hasGt)
    && (forall j :: 0 <= j < i && IsRef(ts[j]) ==> RefIndex(ts[j]) < maxRef)
    && (maxRef == 0 || exists j :: 0 <= j < i && IsRef(ts[j]) && RefIndex(ts[j]) + 1 == maxRef)
    && stars == StarsIn(ts[..i])
  }

  lemma CheckedNext(ts: seq<string>, i: nat, hasGt: bool, stars: nat, maxRef: nat)
    requires i < |ts| && Checked(ts, i, hasGt, stars, maxRef) && DestToken(ts[i])
    requires ts[i] == ">" ==> i == |ts| - 1 && hasGt
    ensures var r := if IsRef(ts[i]) && RefIndex(ts[i]) + 1 > maxRef then RefIndex(ts[i]) + 1 else maxRef;
            Checked(ts, i + 1, hasGt, stars + (if ts[i] == "*" then 1 else 0), r)
  {
    hide DestToken, IsRef, StarsIn;
    StarsInSnoc(ts[..i], ts[i]);
    assert ts[..i + 1] == ts[..i] + [ts[i]];
    if maxRef != 0 {
      var j :| 0 <= j < i && IsRef(ts[j]) && RefIndex(ts[j]) + 1 == maxRef;
    }
  }

  lemma CheckedAll(ts: seq<string>, nstar: nat, hasGt: bool, stars: nat, maxRef: nat)
    requires Checked(ts, |ts|, hasGt, stars, maxRef)
    ensures DestShape(ts, nstar, hasGt) <==> stars <= nstar && maxRef <= nstar
  {
    hide DestToken, IsRef, StarsIn;
    assert ts[..|ts|] == ts;
  }

  /** dest_template_ok. */
  method DestTemplateOk(dest: string, nstar: nat, hasGt: bool) returns (r: bool)
    ensures r <==> DestOk(dest, nstar, hasGt)
  {
    hide HeadLen, Toks, StarsIn, DestToken, Checked, DestShape;
    if |dest| == 0 || |dest| >= SUBJECT_SIZE || dest[|dest| - 1] == '.' { return false; }
    if dest[0] == '.' {
      LeadingDot(dest, nstar, hasGt);
      return false;
    }
    var p: nat, stars: nat, maxRef: nat := 0, 0, 0;
    ghost var i: nat := 0;
    ghost var ts := Toks(dest);
    AtStart(dest);
    CheckedNone(ts, hasGt);
    while p < |dest|
      invariant At(dest, p, i) && Checked(ts, i, hasGt, stars, maxRef)
      decreases |dest| - p
    {
      var pe := TokenEnd(dest, p);
      AtNext(dest, p, pe, i);
      NextIsRest(dest, p, pe);
      var t := dest[p..pe];
      var ok := DestTokenAt(dest, p, pe);
      if !ok || (t == ">" && (pe < |dest| || !hasGt)) {
        BadToken(ts, i, nstar, hasGt);
        return false;
      }
      CheckedNext(ts, i, hasGt, stars, maxRef);
      if t == "*" { stars := stars + 1; }
      if IsRef(t) && RefIndex(t) + 1 > maxRef { maxRef := RefIndex(t) + 1; }
      p, i := Next(dest, pe), i + 1;
    }
    AtEnd(dest, i);
    CheckedAll(ts, nstar, hasGt, stars, maxRef);
    return stars <= nstar && maxRef <= nstar;
  }

  lemma CheckedNone(ts: seq<string>, hasGt: bool)
    ensures Checked(ts, 0, hasGt, 0, 0)
  {
    assert ts[..0] == [];
  }

  lemma LeadingDot(d: string, nstar: nat, hasGt: bool)
    requires d != "" && d[0] == '.'
    ensures !DestShape(Toks(d), nstar, hasGt)
  {
    assert Toks(d)[0] == "";
    assert !DestToken("");
  }

  lemma BadToken(ts: seq<string>, i: nat, nstar: nat, hasGt: bool)
    requires i < |ts| && (!DestToken(ts[i]) || (ts[i] == ">" && !(i == |ts| - 1 && hasGt)))
    ensures !DestShape(ts, nstar, hasGt)
  {
  }

  // ---- rewriting ----

  /** A map that account_add_map accepts. */
  predicate MapOk(src: string, dest: string) {
    AclOk(src) && DestOk(dest, StarsIn(Toks(src)), ">" in Toks(src))
  }

  datatype Rewrite = NoMatch | Refused | Written(len: nat)

  /** rewrite_one. */
  method RewriteOne(src: string, dest: string, input: string, out: array<char>) returns (r: Rewrite)
    modifies out
    ensures r.NoMatch? <==> Catch(src, input, []).None?
    ensures !r.NoMatch? ==> var a := Applied(dest, Catch(src, input, []).value, out.Length);
                            && (r.Written? <==> a.Some?)
                            && (r.Written? ==> r.len < out.Length && out[r.len] == '\0' && a == Some(out[..r.len]))
  {
    hide Catch, Applied;
    var c := MatchCapture(src, input);
    if c.None? { return NoMatch; }
    var n := ApplyDest(dest, c.value, out);
    r := if n.None? then Refused else Written(n.value);
  }

  lemma {:induction false} UnderSize(pt: seq<string>, st: seq<string>)
    requires Matches(pt, st)
    ensures |Under(pt, st)| == StarsIn(pt)
    ensures forall i :: 0 <= i < |Under(pt, st)| ==> Under(pt, st)[i] in st
  {
    if pt != [] {
      if st == [] {
        assert pt == [">"];
        assert pt[1..] == [];
      } else if pt[0] == ">" && |pt| == 1 {
        assert pt[1..] == [];
      } else {
        MatchesStep(pt, st);
        UnderSize(pt[1..], st[1..]);
      }
    }
  }

  lemma {:induction false} RefsHold(dt: seq<string>, n: nat, k: nat)
    requires forall i :: 0 <= i < |dt| && IsRef(dt[i]) ==> RefIndex(dt[i]) < n
    requires k + StarsIn(dt) <= n
    ensures RefsOk(dt, n, k)
  {
    if dt != [] {
      var us := dt[1..];
      assert forall i :: 0 <= i < |us| ==> us[i] == dt[i + 1];
      RefsHold(us, n, if !IsRef(dt[0]) && dt[0] == "*" then k + 1 else k);
    }
  }

  lemma {:induction false} DropPlain(s: string, n: nat)
    requires s == "" || Plain(s)
    ensures Drop(s, n) == "" || Plain(Drop(s, n))
    decreases n
  {
    hide HeadLen, NoFinalDot;
    if n > 0 {
      if s == "" { assert Rest(s) == ""; } else { PlainRest(s); }
      DropPlain(Rest(s), n - 1);
    }
  }

  lemma PlainRest(s: string)
    requires Plain(s)
    ensures PlainToken(Head(s)) && (Rest(s) == "" || Plain(Rest(s)))
  {
    hide HeadLen, NoFinalDot, PlainToken;
    HeadRest(s);
    var ts, us := Toks(s), Toks(Rest(s));
    assert ts == [Head(s)] + us;
    assert forall i :: 0 <= i < |us| ==> us[i] == ts[i + 1];
    assert ts[0] == Head(s);
  }

  lemma TokenPlain(t: string)
    requires PlainToken(t) && Dotless(t)
    ensures Plain(t)
  {
    OneToken(t);
  }

  lemma {:induction false} ToksAppend(a: string, b: string)
    requires a != "" && NoFinalDot(a)
    ensures Toks(a + "." + b) == Toks(a) + Toks(b)
    decreases |a|
  {
    hide HeadLen, NoFinalDot, Head, Rest;
    HeadRest(a);
    HeadAppend(a, b);
    UnfoldToks(a + "." + b);
    UnfoldToks(a);
    hide Toks;
    if Rest(a) != "" {
      ToksAppend(Rest(a), b);
      Cons(Head(a), Toks(Rest(a)), Toks(b));
    } else {
      EmptyToks(Rest(a));
    }
  }

  lemma UnfoldToks(s: string)
    requires s != ""
    ensures Toks(s) == [Head(s)] + Toks(Rest(s))
  {
  }

  lemma Cons(x: string, a: seq<string>, b: seq<string>)
    ensures [x] + (a + b) == ([x] + a) + b
  {
  }

  lemma HeadAppend(a: string, b: string)
    requires a != "" && NoFinalDot(a)
    ensures Head(a + "." + b) == Head(a)
    ensures Rest(a + "." + b) == if Rest(a) == "" then b else Rest(a) + "." + b
  {
    var s, n := a + "." + b, HeadLen(a);
    FirstDot(s, n);
    HeadRest(a);
    hide HeadLen, NoFinalDot;
    assert s[..n] == a[..n];
    if n < |a| {
      assert s[n + 1..] == a[n + 1..] + "." + b;
    } else {
      assert s[n + 1..] == b;
    }
  }

  /** Splitting and joining are inverse: a list of tokens is recovered from its text. */
  lemma {:induction false} ToksJoin(ts: seq<string>)
    requires Tokens(ts)
    ensures Toks(Join(ts)) == ts
  {
    hide Toks, HeadLen;
    if ts == [] {
      NoTokens();
    } else {
      OneToken(ts[0]);
      if |ts| > 1 {
        ToksJoin(ts[1..]);
        assert NoFinalDot(ts[0]);
        ToksAppend(ts[0], Join(ts[1..]));
        assert [ts[0]] + ts[1..] == ts;
      } else {
        assert ts == [ts[0]];
      }
    }
  }

  lemma PlainAppend(a: string, b: string)
    requires Plain(a) && Plain(b)
    ensures Plain(a + "." + b)
  {
    hide PlainToken, Toks;
    ToksAppend(a, b);
    LastOf(a, b);
    AllPlain(Toks(a), Toks(b));
  }

  lemma LastOf(a: string, b: string)
    requires b != "" && NoFinalDot(b)
    ensures a + "." + b != "" && NoFinalDot(a + "." + b)
  {
    var s := a + "." + b;
    assert s[|s| - 1] == b[|b| - 1];
  }

  lemma AllPlain(ts: seq<string>, us: seq<string>)
    requires forall i :: 0 <= i < |ts| ==> PlainToken(ts[i])
    requires forall i :: 0 <= i < |us| ==> PlainToken(us[i])
    ensures forall i :: 0 <= i < |ts + us| ==> PlainToken((ts + us)[i])
  {
  }

  lemma {:induction false} JoinPlain(ts: seq<string>)
    requires ts != [] && forall i :: 0 <= i < |ts| ==> Plain(ts[i])
    ensures Plain(Join(ts))
  {
    hide Plain;
    if |ts| > 1 {
      JoinPlain(ts[1..]);
      PlainAppend(ts[0], Join(ts[1..]));
    }
  }

  /** Every piece of an expansion is plain if the captures are. */
  lemma {:induction false} PiecesPlain(dt: seq<string>, stars: seq<string>, k: nat, gt: string)
    requires forall i :: 0 <= i < |dt| ==> DestToken(dt[i]) && Dotless(dt[i])
    requires RefsOk(dt, |stars|, k) && (gt == "" || Plain(gt))
    requires forall i :: 0 <= i < |stars| ==> Plain(stars[i])
    ensures forall i :: 0 <= i < |Pieces(dt, stars, k, gt)| ==> Plain(Pieces(dt, stars, k, gt)[i])
  {
    hide Plain;
    if dt != [] {
      PiecesStep(dt, stars, k, gt);
      var us := dt[1..];
      assert forall i :: 0 <= i < |us| ==> us[i] == dt[i + 1];
      PiecesPlain(us, stars, if dt[0] == "*" then k + 1 else k, gt);
      if Literal(dt[0]) { TokenPlain(dt[0]); }
    }
  }

  lemma StarsPlain(st: seq<string>, stars: seq<string>)
    requires forall i :: 0 <= i < |st| ==> PlainToken(st[i]) && Dotless(st[i])
    requires forall i :: 0 <= i < |stars| ==> stars[i] in st
    ensures forall i :: 0 <= i < |stars| ==> Plain(stars[i])
  {
    hide Plain, PlainToken, Dotless;
    forall i | 0 <= i < |stars| ensures Plain(stars[i]) {
      var j :| 0 <= j < |st| && st[j] == stars[i];
      TokenPlain(st[j]);
    }
  }

  /** What an accepted map captures from a plain subject. */
  lemma CaughtPlain(src: string, input: string)
    requires Well(src) && Plain(input) && Catch(src, input, []).Some?
    ensures var c := Catch(src, input, []).value;
            && |c.stars| == StarsIn(Toks(src)) && (c.gt == "" || Plain(c.gt))
            && forall i :: 0 <= i < |c.stars| ==> Plain(c.stars[i])
  {
    CatchIs(src, input, []);
    var pt, st, c := Toks(src), Toks(input), Catch(src, input, []).value;
    UnderSize(pt, st);
    ToksDotless(input);
    StarsPlain(st, Under(pt, st));
    assert [] + Under(pt, st) == Under(pt, st);
    DropPlain(input, Fixed(pt));
  }

  /**
   * For an accepted map and a plain subject that it captures, rewriting is refused only when
   * the result is empty or does not fit, and otherwise the result is plain.
   */
  lemma RewriteIsPlain(src: string, dest: string, input: string, cap: nat)
    requires MapOk(src, dest) && Plain(input) && Catch(src, input, []).Some?
    ensures var c := Catch(src, input, []).value;
            && (Applied(dest, c, cap).None? <==> Expand(dest, c) == "" || |Expand(dest, c)| >= cap)
            && (Expand(dest, c) == "" || Plain(Expand(dest, c)))
  {
    hide Catch, Plain, Join, Toks, Pieces;
    CaughtPlain(src, input);
    var c := Catch(src, input, []).value;
    var dt := Toks(dest);
    RefsHold(dt, |c.stars|, 0);
    ToksDotless(dest);
    PiecesPlain(dt, c.stars, 0, c.gt);
    var ps := Pieces(dt, c.stars, 0, c.gt);
    if ps == [] { EmptyJoin(); } else { JoinPlain(ps); }
  }

  /** The result is empty only for a destination of '>' alone that captured nothing. */
  lemma EmptyRewrite(src: string, dest: string, input: string)
    requires MapOk(src, dest) && Plain(input) && Catch(src, input, []).Some?
    ensures var c := Catch(src, input, []).value; Expand(dest, c) == "" <==> dest == ">" && c.gt == ""
  {
    hide Catch, Toks, HeadLen;
    RewriteIsPlain(src, dest, input, 0);
    CaughtPlain(src, input);
    var c := Catch(src, input, []).value;
    var dt := Toks(dest);
    EmptyToks(dest);
    PiecesStep(dt, c.stars, 0, c.gt);
    RefsHold(dt, |c.stars|, 0);
    ToksDotless(dest);
    if dt[0] == ">" {
      GtOnly(dest);
      assert dt[1..] == [] && Pieces([], c.stars, 0, c.gt) == [];
    } else {
      FirstPiece(dt, c);
      OneToken(">");
    }
  }

  lemma GtOnly(d: string)
    requires d != "" && NoFinalDot(d) && Toks(d)[0] == ">" && |Toks(d)| == 1
    ensures d == ">"
  {
    HeadRest(d);
    EmptyToks(Rest(d));
    UnfoldToks(d);
  }

  lemma FirstPiece(dt: seq<string>, c: Caught)
    requires dt != [] && dt[0] != ">" && RefsOk(dt, |c.stars|, 0) && (c.gt == "" || Plain(c.gt))
    requires forall i :: 0 <= i < |dt| ==> DestToken(dt[i]) && Dotless(dt[i])
    requires forall i :: 0 <= i < |c.stars| ==> Plain(c.stars[i])
    ensures Join(Pieces(dt, c.stars, 0, c.gt)) != ""
  {
    hide Plain;
    PiecesPlain(dt, c.stars, 0, c.gt);
    PiecesStep(dt, c.stars, 0, c.gt);
    var ps := Pieces(dt, c.stars, 0, c.gt);
    JoinPlain(ps);
    PlainNotEmpty(Join(ps));
  }

  lemma PlainNotEmpty(s: string)
    requires Plain(s)
    ensures s != ""
  {
  }

  // ---- the identity map ----

  /** Expanding a pattern with its own captures gives the subject back, token by token. */
  lemma {:induction false} PiecesBack(p: string, s: string, stars: seq<string>, k: nat, gt: string)
    requires (p == "" || Well(p)) && (s == "" || Plain(s)) && Matches(Toks(p), Toks(s))
    requires forall i :: 0 <= i < |Toks(p)| ==> !IsRef(Toks(p)[i])
    requires k <= |stars| && stars[k..] == Caps(p, s).stars && (Open(Toks(p)) ==> gt == Caps(p, s).gt)
    ensures Join(Pieces(Toks(p), stars, k, gt)) == s
    ensures forall i :: 0 <= i < |Pieces(Toks(p), stars, k, gt)| ==> Pieces(Toks(p), stars, k, gt)[i] != ""
    decreases |p|
  {
    hide HeadLen, Plain, Matches, Caps, Shape, NoFinalDot;
    if p == "" {
      EmptyToks(s);
      assert Toks(p) == [] && s == "" by { MatchesNothing(Toks(s)); }
    } else if p == ">" {
      ShapeRest(p);
      GtAlone(s);
      assert Pieces([">"], stars, k, gt) == (if gt == "" then [] else [gt]) + Pieces([], stars, k, gt);
    } else if s == "" {
      EmptyToks(s);
      NotJustGt(p);
    } else {
      PiecesBackStep(p, s, stars, k, gt);
    }
  }

  lemma MatchesNothing(st: seq<string>)
    requires Matches([], st)
    ensures st == []
  {
  }

  lemma PiecesBackStep(p: string, s: string, stars: seq<string>, k: nat, gt: string)
    requires Well(p) && p != ">" && s != "" && Plain(s) && Matches(Toks(p), Toks(s))
    requires forall i :: 0 <= i < |Toks(p)| ==> !IsRef(Toks(p)[i])
    requires k <= |stars| && stars[k..] == Caps(p, s).stars && (Open(Toks(p)) ==> gt == Caps(p, s).gt)
    ensures Join(Pieces(Toks(p), stars, k, gt)) == s
    ensures forall i :: 0 <= i < |Pieces(Toks(p), stars, k, gt)| ==> Pieces(Toks(p), stars, k, gt)[i] != ""
    decreases |p|, 0
  {
    hide HeadLen, Matches, Caps, Shape, NoFinalDot, Catch, Plain, PlainToken, Toks, Head, Rest, Join;
    ShapeRest(p);
    CatchStep(p, s);
    PlainRest(s);
    var pt, k' := Toks(p), if Head(p) == "*" then k + 1 else k;
    ShiftStars(stars, k, Head(p), Head(s), Caps(Rest(p), Rest(s)).stars);
    assert pt[0] == Head(p) && pt[1..] == Toks(Rest(p));
    assert Open(Toks(Rest(p))) ==> Open(pt);
    assert forall i :: 0 <= i < |Toks(Rest(p))| ==> Toks(Rest(p))[i] == pt[i + 1];
    PiecesBack(Rest(p), Rest(s), stars, k', gt);
    var rest := Pieces(Toks(Rest(p)), stars, k', gt);
    assert Pieces(pt, stars, k, gt) == [Head(s)] + rest by {
      PiecesStep(pt, stars, k, gt);
      assert AddedBy(pt[0], stars, k, gt) == Add(Head(s));
    }
    hide Pieces;
    PlainTokenNotEmpty(Head(s));
    PlainEnds(s);
    HeadRest(s);
    JoinCons(Head(s), rest, s);
  }

  lemma ShiftStars(stars: seq<string>, k: nat, t: string, h: string, more: seq<string>)
    requires k <= |stars| && stars[k..] == (if t == "*" then [h] else []) + more
    ensures t == "*" ==> k < |stars| && stars[k] == h && stars[k + 1..] == more
    ensures t != "*" ==> stars[k..] == more
  {
    if t == "*" {
      assert stars[k] == stars[k..][0];
      assert stars[k + 1..] == stars[k..][1..];
    }
  }

  lemma PlainTokenNotEmpty(t: string)
    requires PlainToken(t)
    ensures t != ""
  {
  }

  lemma PlainEnds(s: string)
    requires Plain(s)
    ensures NoFinalDot(s)
  {
  }

  lemma JoinCons(h: string, rest: seq<string>, s: string)
    requires forall i :: 0 <= i < |rest| ==> rest[i] != ""
    requires s == if Join(rest) != "" then h + "." + Join(rest) else h
    ensures Join([h] + rest) == s
  {
    assert ([h] + rest)[1..] == rest;
    assert rest != [] ==> Join(rest) != "";
  }

  /** Mapping a pattern without '$' to itself changes no plain subject it captures. */
  lemma IdentityMap(p: string, input: string)
    requires AclOk(p) && '$' !in p && Plain(input) && Catch(p, input, []).Some?
    ensures MapOk(p, p) && Expand(p, Catch(p, input, []).value) == input
  {
    hide Catch, Caps, Plain, HeadLen, Matches;
    CatchIs(p, input, []);
    var pt, c := Toks(p), Catch(p, input, []).value;
    assert c == Caught([] + Caps(p, input).stars, Caps(p, input).gt);
    assert [] + Caps(p, input).stars == Caps(p, input).stars;
    assert c.stars[0..] == c.stars;
    NoDollar(p);
    SelfMap(p);
    assert forall i :: 0 <= i < |pt| ==> !IsRef(pt[i]);
    PiecesBack(p, input, c.stars, 0, c.gt);
  }

  lemma {:induction false} NoDollar(s: string)
    requires '$' !in s
    ensures forall i :: 0 <= i < |Toks(s)| ==> '$' !in Toks(s)[i]
    decreases |s|
  {
    if s != "" {
      assert '$' !in Head(s) && '$' !in Rest(s);
      NoDollar(Rest(s));
    }
  }

  lemma SelfMap(p: string)
    requires AclOk(p) && forall i :: 0 <= i < |Toks(p)| ==> '$' !in Toks(p)[i]
    ensures MapOk(p, p)
  {
    var ts := Toks(p);
    forall i | 0 <= i < |ts| ensures DestToken(ts[i]) && !IsRef(ts[i]) {
      assert GoodToken(ts[i]);
      if IsRef(ts[i]) { RefHasDollar(ts[i]); }
    }
  }

  lemma RefHasDollar(t: string)
    requires IsRef(t)
    ensures '$' in t
  {
    assert t[0] in t;
  }

  // ---- catch-all patterns ----

  predicate Wild(t: string) { t == "*" || t == ">" }

  predicate WildRest(s: string)
    decreases |s|
  {
    s == "" || (Wild(Head(s)) && (Head(s) == ">" ==> HeadLen(s) == |s|) && WildRest(Rest(s)))
  }

  /** For a well-formed pattern: all its tokens are wildcards. */
  lemma {:induction false} WildMeans(p: string)
    requires p == "" || Well(p)
    ensures WildRest(p) <==> forall i :: 0 <= i < |Toks(p)| ==> Wild(Toks(p)[i])
    decreases |p|
  {
    hide HeadLen, Shape, NoFinalDot, Wild;
    if p != "" {
      ShapeRest(p);
      WildMeans(Rest(p));
      var ts, us := Toks(p), Toks(Rest(p));
      assert ts[0] == Head(p) && forall i :: 0 <= i < |us| ==> ts[i + 1] == us[i];
      assert forall i :: 1 <= i < |ts| ==> ts[i] == us[i - 1];
      if p == ">" { HeadOfToken(p, ""); }
    }
  }

  lemma WellIsSome(p: string)
    ensures Well(p) ==> p != ""
  {
  }

  /** pattern_wildcard_only. */
  method PatternWildcardOnly(pat: string) returns (r: bool)
    ensures r <==> pat != "" && WildRest(pat)
    ensures Well(pat) ==> (r <==> forall i :: 0 <= i < |Toks(pat)| ==> Wild(Toks(pat)[i]))
  {
    hide HeadLen, Rest, Well, Toks;
    WellIsSome(pat);
    if Well(pat) { WildMeans(pat); }
    if pat == "" { return false; }
    var p: nat := 0;
    assert pat[0..] == pat;
    while p < |pat|
      invariant p <= |pat| && WildRest(pat) == WildRest(pat[p..])
    {
      var pe := TokenEnd(pat, p);
      NextIsRest(pat, p, pe);
      var t := pat[p..pe];
      if !(t == "*" || t == ">") { return false; }
      if t == ">" && pe < |pat| { return false; }
      p := Next(pat, pe);
    }
    return true;
  }

  // ---- a map that is accepted and rewrites nothing ----

  function Repeat(t: string, n: nat): seq<string> { seq(n, i => t) }

  lemma {:induction false} StarsOfRepeat(n: nat)
    ensures StarsIn(Repeat("*", n)) == n
  {
    if n > 0 {
      StarsOfRepeat(n - 1);
      assert Repeat("*", n)[1..] == Repeat("*", n - 1);
    }
  }

  /** One-character tokens joined: no dot at the end, and a dot for each but one of them. */
  lemma {:induction false} JoinedRepeat(t: string, n: nat)
    requires |t| == 1 && t[0] != '.' && n > 0
    ensures |Join(Repeat(t, n))| == 2 * n - 1 && NoFinalDot(Join(Repeat(t, n)))
  {
    if n > 1 {
      JoinedRepeat(t, n - 1);
      assert Repeat(t, n)[1..] == Repeat(t, n - 1);
    }
  }

  /** A map of any number of stars to one literal token, as long as the source fits its field. */
  lemma StarsAccepted(n: nat)
    requires 0 < n <= 127
    ensures var src := Join(Repeat("*", n)); Toks(src) == Repeat("*", n) && MapOk(src, "x")
  {
    hide Toks, Join, Shape, DestShape, NoFinalDot;
    StarsOfRepeat(n);
    JoinedRepeat("*", n);
    StarsShape(n);
    ToksJoin(Repeat("*", n));
    LiteralDest(n);
  }

  lemma StarsShape(n: nat)
    ensures Shape(Repeat("*", n)) && Tokens(Repeat("*", n)) && ">" !in Repeat("*", n)
  {
    assert GoodToken("*");
    hide GoodToken;
    assert forall i :: 0 <= i < n ==> Repeat("*", n)[i] == "*";
  }

  lemma LiteralDest(n: nat)
    ensures DestOk("x", n, false)
  {
    hide Toks;
    OneToken("x");
    assert Literal("x") && !IsRef("x");
    assert StarsIn(["x"]) == StarsIn([]) by { assert ["x"][1..] == []; }
  }

  /**
   * With 9 to 127 stars: the map is accepted, the subject of as many tokens matches its source,
   * and nothing is captured, so the subject is not rewritten.
   */
  lemma AcceptedButIdle(n: nat)
    requires MAP_CAPS < n <= 127
    ensures var src, subject := Join(Repeat("*", n)), Join(Repeat("a", n));
            MapOk(src, "x") && Match(src, subject) && Catch(src, subject, []) == None
  {
    var src, subject := Join(Repeat("*", n)), Join(Repeat("a", n));
    StarsAccepted(n);
    StarsOfRepeat(n);
    ToksJoin(Repeat("a", n));
    hide Toks, Join, Catch, Match;
    assert Well(src);
    MatchMeans(src, subject);
    assert !Open(Repeat("*", n));
    TooManyStars(src, subject);
  }
}
