/**
 * The gates of the account manager (src/enterprise/cmq_account.c): who may subscribe to a
 * subject, and who may deliver it to whom. In every state the manager can reach, the two
 * gates agree.
 */
module Gates {
  import opened Common
  import opened Subjects
  import opened Accounts

  predicate EqOrStar(rule: string, actual: string) { rule == "*" || rule == actual }

  predicate WildOnly(p: string) { p != "" && WildRest(p) }

  /** A rule lets a subject through to or from an account; a narrow reading skips catch-alls. */
  predicate Lets(e: Rule, subject: string, who: string, narrow: bool) {
    !(narrow && WildOnly(e.subject)) && Match(e.subject, subject) && EqOrStar(e.target, who)
  }

  predicate AnyLets(rules: seq<Rule>, subject: string, who: string, narrow: bool) {
    exists e :: e in rules && Lets(e, subject, who, narrow)
  }

  /** Another account exports the subject to this one, by a pattern that is not a catch-all. */
  predicate Offered(perms: seq<Perms>, account: string, subject: string, narrow: bool) {
    exists r :: r in perms && r.account != account && AnyLets(r.exports, subject, account, narrow)
  }

  predicate Claimed(imports: seq<Rule>, subject: string) {
    exists e :: e in imports && !WildOnly(e.subject) && Match(e.subject, subject)
  }

  /** The subject is not local to the account: the subscribe gate looks at its rules. */
  predicate Gated(perms: seq<Perms>, account: string, subject: string) {
    Offered(perms, account, subject, true) || Claimed(RowFor(perms, account).imports, subject)
  }

  predicate SourceOk(perms: seq<Perms>, account: string, subject: string, source: string) {
    if source == "*" then Offered(perms, account, subject, false)
    else AnyLets(RowFor(perms, source).exports, subject, account, false)
  }

  predicate PairOk(perms: seq<Perms>, account: string, subject: string) {
    exists e :: e in RowFor(perms, account).imports && Match(e.subject, subject) &&
        SourceOk(perms, account, subject, e.target)
  }

  /** May this account subscribe? */
  predicate CanImport(accounts: seq<Account>, perms: seq<Perms>, account: string, subject: string) {
    Active(accounts, account) && (Gated(perms, account, subject) ==> PairOk(perms, account, subject))
  }

  predicate Inbox(subject: string) { "_INBOX." <= subject }

  predicate Exports(rules: seq<Rule>, subject: string) {
    rules == [] || exists e :: e in rules && Match(e.subject, subject)
  }

  /** May a message of one account be delivered to another? */
  predicate MayDeliver(accounts: seq<Account>, perms: seq<Perms>, pub: string, sub: string, subject: string) {
    && Active(accounts, pub) && Active(accounts, sub)
    && if pub == sub then Inbox(subject) || Exports(RowFor(perms, pub).exports, subject)
       else AnyLets(RowFor(perms, pub).exports, subject, sub, false) &&
            AnyLets(RowFor(perms, sub).imports, subject, pub, false)
  }

  // ---- the two gates agree ----

  lemma RowForIn(perms: seq<Perms>, account: string)
    ensures RowFor(perms, account).account == account
    ensures RowFor(perms, account) in perms || (RowFor(perms, account).exports == [] &&
            RowFor(perms, account).imports == [])
  {
  }

  lemma RowForIs(accounts: seq<Account>, perms: seq<Perms>, mapTotal: nat, r: Perms)
    requires Inv(accounts, perms, mapTotal) && r in perms
    ensures RowFor(perms, r.account) == r && Active(accounts, r.account)
  {
    hide RulesOk, MapsOk;
    var i :| 0 <= i < |perms| && perms[i] == r;
    assert RowOk(accounts, perms[i]);
    assert RowOf(perms, r.account) == i;
  }

  /** What may be delivered from another account has a matching pair of import and export. */
  lemma DeliverableHasAPair(accounts: seq<Account>, perms: seq<Perms>, account: string, subject: string, pub: string)
    requires pub != account && MayDeliver(accounts, perms, pub, account, subject)
    ensures PairOk(perms, account, subject)
  {
    hide Match, RowFor, Gated, Active;
    var from, to := RowFor(perms, pub), RowFor(perms, account);
    var e :| e in to.imports && Lets(e, subject, pub, false);
    RowForIn(perms, pub);
    assert e.target == "*" ==> Offered(perms, account, subject, false);
    assert SourceOk(perms, account, subject, e.target);
  }

  /** A refused subscriber could have got the subject from no other account. */
  lemma RefusedGetsNothing(accounts: seq<Account>, perms: seq<Perms>, account: string, subject: string, pub: string)
    requires Active(accounts, account) && !CanImport(accounts, perms, account, subject) && pub != account
    ensures !MayDeliver(accounts, perms, pub, account, subject)
  {
    hide MayDeliver, PairOk, Gated;
    if MayDeliver(accounts, perms, pub, account, subject) {
      DeliverableHasAPair(accounts, perms, account, subject, pub);
    }
  }

  /** An import of the account names the account itself, and its own exports answer it. */
  predicate SelfImport(perms: seq<Perms>, account: string, subject: string) {
    var row := RowFor(perms, account);
    && account != "*"
    && (exists e :: e in row.imports && Match(e.subject, subject) && e.target == account)
    && AnyLets(row.exports, subject, account, false)
  }

  ghost predicate ForeignSource(accounts: seq<Account>, perms: seq<Perms>, account: string, subject: string) {
    exists pub :: pub != account && MayDeliver(accounts, perms, pub, account, subject)
  }

  lemma PairHasASource(accounts: seq<Account>, perms: seq<Perms>, mapTotal: nat, account: string, subject: string)
    requires Inv(accounts, perms, mapTotal) && Active(accounts, account) && PairOk(perms, account, subject)
    ensures ForeignSource(accounts, perms, account, subject) || SelfImport(perms, account, subject)
  {
    hide Inv, Match, RowFor, Gated, Active;
    var e :| e in RowFor(perms, account).imports && Match(e.subject, subject) &&
        SourceOk(perms, account, subject, e.target);
    if e.target == "*" {
      var r :| r in perms && r.account != account && AnyLets(r.exports, subject, account, false);
      RowForIs(accounts, perms, mapTotal, r);
      assert Lets(e, subject, r.account, false);
      assert MayDeliver(accounts, perms, r.account, account, subject);
    } else if e.target != account {
      var from := RowFor(perms, e.target);
      RowForIn(perms, e.target);
      var x :| x in from.exports && Lets(x, subject, account, false);
      RowForIs(accounts, perms, mapTotal, from);
      assert Lets(e, subject, e.target, false);
      assert MayDeliver(accounts, perms, e.target, account, subject);
    }
  }

  lemma SelfImportPairs(perms: seq<Perms>, account: string, subject: string)
    requires SelfImport(perms, account, subject)
    ensures PairOk(perms, account, subject)
  {
    hide Match, RowFor;
  }

  /**
   * A gated subscription is let in exactly when another active account may deliver the
   * subject, or an import of the account that names the account is answered by its exports.
   */
  lemma AllowedHasASource(accounts: seq<Account>, perms: seq<Perms>, mapTotal: nat, account: string, subject: string)
    requires Inv(accounts, perms, mapTotal) && Active(accounts, account) && Gated(perms, account, subject)
    ensures CanImport(accounts, perms, account, subject) <==>
            ForeignSource(accounts, perms, account, subject) || SelfImport(perms, account, subject)
  {
    hide Inv, PairOk, SelfImport, Gated, Active, MayDeliver;
    if PairOk(perms, account, subject) {
      PairHasASource(accounts, perms, mapTotal, account, subject);
    }
    if SelfImport(perms, account, subject) {
      SelfImportPairs(perms, account, subject);
    }
    if pub :| pub != account && MayDeliver(accounts, perms, pub, account, subject) {
      DeliverableHasAPair(accounts, perms, account, subject, pub);
    }
  }

  // ---- the gates in terms of the rules ----

  /** A rule of some account lets a subject through to or from another. */
  ghost predicate RuleFor(rules: seq<Rule>, subject: string, who: string) {
    exists e :: e in rules && Match(e.subject, subject) && (e.target == "*" || e.target == who)
  }

  /** Delivery from one account to another takes an export of the one and an import of the other. */
  lemma CrossDelivery(accounts: seq<Account>, perms: seq<Perms>, mapTotal: nat, pub: string, sub: string,
                      subject: string)
    requires Inv(accounts, perms, mapTotal) && pub != sub
    ensures MayDeliver(accounts, perms, pub, sub, subject) <==>
            && Active(accounts, pub) && Active(accounts, sub)
            && (exists r :: r in perms && r.account == pub && RuleFor(r.exports, subject, sub))
            && (exists r :: r in perms && r.account == sub && RuleFor(r.imports, subject, pub))
  {
    hide Inv, Match, RowFor, Active;
    RowForIn(perms, pub);
    RowForIn(perms, sub);
    forall r | r in perms ensures RowFor(perms, r.account) == r { RowForIs(accounts, perms, mapTotal, r); }
    LetsIsRule(RowFor(perms, pub).exports, subject, sub);
    LetsIsRule(RowFor(perms, sub).imports, subject, pub);
  }

  lemma LetsIsRule(rules: seq<Rule>, subject: string, who: string)
    ensures AnyLets(rules, subject, who, false) <==> RuleFor(rules, subject, who)
  {
    hide Match;
    if e :| e in rules && Match(e.subject, subject) && (e.target == "*" || e.target == who) {
      assert Lets(e, subject, who, false);
    }
  }

  /** An account without exports delivers everything to itself; one with exports what they match, and inboxes. */
  lemma SelfDelivery(accounts: seq<Account>, perms: seq<Perms>, mapTotal: nat, account: string, subject: string)
    requires Inv(accounts, perms, mapTotal) && Active(accounts, account)
    ensures MayDeliver(accounts, perms, account, account, subject) <==>
            || (forall r :: r in perms && r.account == account ==> r.exports == [])
            || (|subject| >= 7 && subject[..7] == "_INBOX.")
            || exists r, e :: r in perms && r.account == account && e in r.exports && Match(e.subject, subject)
  {
    hide Inv, Match, RowFor, Active;
    RowForIn(perms, account);
    forall r | r in perms ensures RowFor(perms, r.account) == r { RowForIs(accounts, perms, mapTotal, r); }
    assert Inbox(subject) <==> |subject| >= 7 && subject[..7] == "_INBOX.";
    hide Inbox;
    if r, e :| r in perms && r.account == account && e in r.exports && Match(e.subject, subject) {
      assert r == RowFor(perms, account);
    }
  }

  /** All tokens of a pattern are wildcards. */
  predicate AllWild(p: string) { forall i :: 0 <= i < |Toks(p)| ==> Wild(Toks(p)[i]) }

  /** The subject is some other account's offer to this one, by a pattern that names a token. */
  ghost predicate OfferedBy(r: Perms, account: string, subject: string) {
    exists e :: e in r.exports && !AllWild(e.subject) && Match(e.subject, subject) &&
        (e.target == "*" || e.target == account)
  }

  /** A subject that no other account offers and no import claims is local: any active account may subscribe. */
  lemma LocalAllowed(accounts: seq<Account>, perms: seq<Perms>, mapTotal: nat, account: string, subject: string)
    requires Inv(accounts, perms, mapTotal) && Active(accounts, account)
    requires forall r :: r in perms && r.account != account ==> !OfferedBy(r, account, subject)
    requires forall r, e :: r in perms && r.account == account && e in r.imports ==>
               AllWild(e.subject) || !Match(e.subject, subject)
    ensures CanImport(accounts, perms, account, subject)
  {
    hide Match, RowFor, Active, WildRest, AllWild, PairOk;
    RowForIn(perms, account);
    forall r, e | r in perms && (e in r.exports || e in r.imports) ensures WildOnly(e.subject) <==> AllWild(e.subject) {
      RuleIsWell(accounts, perms, mapTotal, r, e);
      WildIs(e.subject);
    }
  }

  lemma RuleIsWell(accounts: seq<Account>, perms: seq<Perms>, mapTotal: nat, r: Perms, e: Rule)
    requires Inv(accounts, perms, mapTotal) && r in perms && (e in r.exports || e in r.imports)
    ensures Well(e.subject)
  {
    hide Match, RowFor, Active;
    var i :| 0 <= i < |perms| && perms[i] == r;
    assert RowOk(accounts, perms[i]);
  }

  lemma WildIs(p: string)
    requires Well(p)
    ensures WildOnly(p) <==> AllWild(p)
  {
    hide WildRest, Well, Toks, Wild;
    WellIsSome(p);
    WildMeans(p);
    if WildRest(p) {
      forall i | 0 <= i < |Toks(p)| ensures Wild(Toks(p)[i]) {}
    }
  }

  // ---- the code ----

  /** The loops over a row's rules. */
  method RulesLet(rules: seq<Rule>, subject: string, who: string, narrow: bool) returns (r: bool)
    ensures r <==> AnyLets(rules, subject, who, narrow)
  {
    hide Match, WildRest;
    var i: nat := 0;
    while i < |rules|
      invariant i <= |rules| && forall j :: 0 <= j < i ==> !Lets(rules[j], subject, who, narrow)
    {
      var wild := PatternWildcardOnly(rules[i].subject);
      var hit := SubjectMatch(rules[i].subject, subject);
      if !(narrow && wild) && hit && EqOrStar(rules[i].target, who) {
        assert Lets(rules[i], subject, who, narrow);
        return true;
      }
      i := i + 1;
    }
    return false;
  }

  /** export_offered_to, and the same loop of the pair check without its exception for catch-alls. */
  method ExportOfferedTo(perms: seq<Perms>, account: string, subject: string, narrow: bool) returns (r: bool)
    ensures r <==> Offered(perms, account, subject, narrow)
  {
    hide AnyLets;
    var i: nat := 0;
    while i < |perms|
      invariant i <= |perms|
      invariant forall j :: 0 <= j < i ==>
                  perms[j].account == account || !AnyLets(perms[j].exports, subject, account, narrow)
    {
      if perms[i].account != account {
        var lets := RulesLet(perms[i].exports, subject, account, narrow);
        if lets {
          assert perms[i] in perms;
          return true;
        }
      }
      i := i + 1;
    }
    return false;
  }

  /** import_matches_subject. */
  method ImportMatchesSubject(imports: seq<Rule>, subject: string) returns (r: bool)
    ensures r <==> Claimed(imports, subject)
  {
    hide Match, WildRest;
    var i: nat := 0;
    while i < |imports|
      invariant i <= |imports|
      invariant forall j :: 0 <= j < i ==> WildOnly(imports[j].subject) || !Match(imports[j].subject, subject)
    {
      var wild := PatternWildcardOnly(imports[i].subject);
      var hit := SubjectMatch(imports[i].subject, subject);
      if !wild && hit {
        assert imports[i] in imports;
        return true;
      }
      i := i + 1;
    }
    return false;
  }

  method ExportsOf(mgr: AccountManager, account: string) returns (rules: seq<Rule>)
    ensures rules == RowFor(mgr.perms, account).exports
  {
    var i := mgr.FindPerms(account);
    rules := if i < |mgr.perms| then mgr.perms[i].exports else [];
  }

  method ImportsOf(mgr: AccountManager, account: string) returns (rules: seq<Rule>)
    ensures rules == RowFor(mgr.perms, account).imports
  {
    var i := mgr.FindPerms(account);
    rules := if i < |mgr.perms| then mgr.perms[i].imports else [];
  }

  /** import_export_pair_ok. */
  method ImportExportPairOk(mgr: AccountManager, account: string, subject: string) returns (r: bool)
    ensures r <==> PairOk(mgr.perms, account, subject)
  {
    hide Match, RowFor, AnyLets, Offered;
    var imports := ImportsOf(mgr, account);
    var i: nat := 0;
    while i < |imports|
      invariant i <= |imports|
      invariant forall j :: 0 <= j < i ==>
                  !(Match(imports[j].subject, subject) && SourceOk(mgr.perms, account, subject, imports[j].target))
    {
      var hit := SubjectMatch(imports[i].subject, subject);
      if hit {
        var ok;
        if imports[i].target == "*" {
          ok := ExportOfferedTo(mgr.perms, account, subject, false);
        } else {
          var exports := ExportsOf(mgr, imports[i].target);
          ok := RulesLet(exports, subject, account, false);
        }
        if ok {
          assert imports[i] in imports;
          return true;
        }
      }
      i := i + 1;
    }
    return false;
  }

  /** account_can_import_impl: the subscribe gate. */
  method SubscribeGate(mgr: AccountManager, account: string, subject: string) returns (ok: bool)
    ensures ok <==> CanImport(mgr.accounts, mgr.perms, account, subject)
  {
    hide Active, Offered, Claimed, PairOk, RowFor;
    var active := mgr.IsActive(account);
    if !active { return false; }
    var imports := ImportsOf(mgr, account);
    var offered := ExportOfferedTo(mgr.perms, account, subject, true);
    var claimed := ImportMatchesSubject(imports, subject);
    ok := true;
    if offered || claimed { ok := ImportExportPairOk(mgr, account, subject); }
  }

  /** The allow-list of an account's own exports. */
  method ExportsAllow(rules: seq<Rule>, subject: string) returns (ok: bool)
    ensures ok <==> Exports(rules, subject)
  {
    hide Match;
    var i: nat := 0;
    while i < |rules|
      invariant i <= |rules| && forall j :: 0 <= j < i ==> !Match(rules[j].subject, subject)
    {
      var hit := SubjectMatch(rules[i].subject, subject);
      if hit {
        assert rules[i] in rules;
        return true;
      }
      i := i + 1;
    }
    return |rules| == 0;
  }

  /** account_may_deliver_impl: the delivery gate. */
  method DeliverGate(mgr: AccountManager, pub: string, sub: string, subject: string) returns (ok: bool)
    ensures ok <==> MayDeliver(mgr.accounts, mgr.perms, pub, sub, subject)
  {
    hide Active, AnyLets, RowFor, Exports;
    var pubActive := mgr.IsActive(pub);
    var subActive := mgr.IsActive(sub);
    if !pubActive || !subActive { return false; }
    var exports := ExportsOf(mgr, pub);
    if pub == sub {
      if Inbox(subject) { return true; }
      ok := ExportsAllow(exports, subject);
      return;
    }
    var imports := ImportsOf(mgr, sub);
    var exportOk := RulesLet(exports, subject, sub, false);
    var importOk := RulesLet(imports, subject, pub, false);
    return exportOk && importOk;
  }

  // ---- what the edits do to delivery ----

  lemma RowOfSame(a: seq<Perms>, b: seq<Perms>, account: string)
    requires |a| == |b| && forall i :: 0 <= i < |a| ==> a[i].account == b[i].account
    ensures RowOf(a, account) == RowOf(b, account)
  {
    var i, j := RowOf(a, account), RowOf(b, account);
    assert i < |a| ==> b[i].account == account;
    assert j < |b| ==> a[j].account == account;
  }

  lemma RowOfMore(perms: seq<Perms>, r: Perms, who: string)
    ensures var i := RowOf(perms, who);
            RowOf(perms + [r], who) == if i < |perms| || r.account == who then i else |perms| + 1
  {
    assert (perms + [r])[..|perms|] == perms;
  }

  lemma RowAfterSet(perms: seq<Perms>, account: string, r: Perms, who: string)
    requires r.account == account
    ensures RowFor(SetRow(perms, account, r), who) == if who == account then r else RowFor(perms, who)
  {
    hide RowOf;
    if RowOf(perms, account) < |perms| {
      RowOfSame(perms, SetRow(perms, account, r), who);
    } else {
      RowOfMore(perms, r, who);
    }
  }

  /** No rule of any account is lost. */
  ghost predicate RulesGrow(a: seq<Perms>, b: seq<Perms>) {
    forall who :: (forall e :: e in RowFor(a, who).exports ==> e in RowFor(b, who).exports) &&
                  (forall e :: e in RowFor(a, who).imports ==> e in RowFor(b, who).imports)
  }

  lemma GrowDelivers(accounts: seq<Account>, a: seq<Perms>, b: seq<Perms>, p: string, q: string, x: string)
    requires RulesGrow(a, b) && p != q && MayDeliver(accounts, a, p, q, x)
    ensures MayDeliver(accounts, b, p, q, x)
  {
    hide Match, RowFor, Active;
    var e :| e in RowFor(a, p).exports && Lets(e, x, q, false);
    var f :| f in RowFor(a, q).imports && Lets(f, x, p, false);
    assert e in RowFor(b, p).exports && f in RowFor(b, q).imports;
  }

  /** The rows after a rule was added, if it was not there. */
  lemma RuleAdded(a: seq<Perms>, b: seq<Perms>, account: string, exporting: bool, rule: Rule)
    requires var row := RowFor(a, account);
             b == if rule in RulesOf(row, exporting) then a
                  else SetRow(a, account, WithRules(row, exporting, RulesOf(row, exporting) + [rule]))
    ensures RulesGrow(a, b)
    ensures exporting ==> rule in RowFor(b, account).exports
    ensures !exporting ==> rule in RowFor(b, account).imports
  {
    hide RowOf;
    var row := RowFor(a, account);
    var r := WithRules(row, exporting, RulesOf(row, exporting) + [rule]);
    assert r.account == account;
    forall who ensures RowFor(SetRow(a, account, r), who) == if who == account then r else RowFor(a, who) {
      RowAfterSet(a, account, r, who);
    }
    hide RowFor, SetRow;
  }

  /**
   * An export to an account and an import from the exporter: every subject of the pattern may
   * be delivered from the one to the other, and nothing that could be delivered before is lost.
   */
  method Grant(mgr: AccountManager, pub: string, sub: string, pattern: string) returns (ok: bool)
    requires mgr.Valid() && pub != sub
    modifies mgr
    ensures mgr.Valid() && mgr.accounts == old(mgr.accounts)
    ensures ok ==> forall x :: Match(pattern, x) ==> MayDeliver(mgr.accounts, mgr.perms, pub, sub, x)
    ensures forall p, q, x :: p != q && MayDeliver(old(mgr.accounts), old(mgr.perms), p, q, x) ==>
              MayDeliver(mgr.accounts, mgr.perms, p, q, x)
  {
    hide Match, AclOk, RowFor, SetRow, Active, RulesGrow, Inv, RulesOf, WithRules, MayDeliver;
    ghost var before := mgr.perms;
    ok := mgr.AddRule(true, pub, pattern, sub);
    ghost var mid := mgr.perms;
    SameRules(before);
    if ok {
      RuleAdded(before, mid, pub, true, Rule(pattern, sub));
      ok := mgr.AddRule(false, sub, pattern, pub);
      SameRules(mid);
      if ok { RuleAdded(mid, mgr.perms, sub, false, Rule(pattern, pub)); }
    }
    ghost var now := mgr.perms;
    forall p, q, x | p != q && MayDeliver(mgr.accounts, before, p, q, x) ensures MayDeliver(mgr.accounts, now, p, q,
        x) {
      GrowDelivers(mgr.accounts, before, mid, p, q, x);
      GrowDelivers(mgr.accounts, mid, now, p, q, x);
    }
    if ok {
      forall x | Match(pattern, x) ensures MayDeliver(mgr.accounts, now, pub, sub, x) {
        BothRules(mgr.accounts, mid, now, pub, sub, pattern, x);
      }
    }
  }

  lemma SameRules(a: seq<Perms>)
    ensures RulesGrow(a, a)
  {
  }

  lemma BothRules(accounts: seq<Account>, mid: seq<Perms>, now: seq<Perms>, pub: string, sub: string, pattern: string,
                  x: string)
    requires pub != sub && Active(accounts, pub) && Active(accounts, sub) && Match(pattern, x) && RulesGrow(mid, now)
    requires Rule(pattern, sub) in RowFor(mid, pub).exports && Rule(pattern, pub) in RowFor(now, sub).imports
    ensures MayDeliver(accounts, now, pub, sub, x)
  {
    hide Match, RowFor, Active;
    assert Rule(pattern, sub) in RowFor(now, pub).exports;
    assert Lets(Rule(pattern, sub), x, sub, false) && Lets(Rule(pattern, pub), x, pub, false);
  }

  // ---- rewriting by an account's maps ----

  /** The first map that captures the subject decides; without one the subject stays as it is. */
  function Rewritten(maps: seq<Rule>, input: string, cap: nat): Option<string> {
    if maps == [] then if |input| < cap then Some(input) else None
    else
      var c := Catch(maps[0].subject, input, []);
      if c.Some? then Applied(maps[0].target, c.value, cap) else Rewritten(maps[1..], input, cap)
  }

  /** So it is: the first map whose source captures the subject, and only it. */
  lemma {:induction false} FirstMapDecides(maps: seq<Rule>, input: string, cap: nat, i: nat)
    requires i <= |maps| && forall j :: 0 <= j < i ==> Catch(maps[j].subject, input, []).None?
    requires i < |maps| ==> Catch(maps[i].subject, input, []).Some?
    ensures Rewritten(maps, input, cap) ==
            if i < |maps| then Applied(maps[i].target, Catch(maps[i].subject, input, []).value, cap)
            else if |input| < cap then Some(input) else None
  {
    hide Catch, Applied;
    if i > 0 { FirstMapDecides(maps[1..], input, cap, i - 1); }
  }

  /** account_rewrite_impl. */
  method RewriteSubject(mgr: AccountManager, account: string, input: string, out: array<char>) returns (r: Option<nat>)
    modifies out
    ensures r.Some? <==> Rewritten(RowFor(mgr.perms, account).maps, input, out.Length).Some?
    ensures r.Some? ==> r.value < out.Length && out[r.value] == '\0' &&
                        Rewritten(RowFor(mgr.perms, account).maps, input, out.Length) == Some(out[..r.value])
  {
    hide Catch, Applied, RowOf;
    var row := mgr.FindPerms(account);
    var maps := if row < |mgr.perms| then mgr.perms[row].maps else [];
    var i: nat := 0;
    assert maps[0..] == maps;
    while i < |maps|
      invariant i <= |maps| && Rewritten(maps[i..], input, out.Length) == Rewritten(maps, input, out.Length)
    {
      assert maps[i..][1..] == maps[i + 1..];
      var one := RewriteOne(maps[i].subject, maps[i].target, input, out);
      if one.Written? { return Some(one.len); }
      if one.Refused? { return None; }
      i := i + 1;
    }
    if |input| >= out.Length { return None; }
    forall k | 0 <= k < |input| { out[k] := input[k]; }
    out[|input|] := '\0';
    assert out[..|input|] == input;
    return Some(|input|);
  }

  lemma {:induction false} MapsKeepPlain(maps: seq<Rule>, input: string, cap: nat)
    requires Plain(input) && forall i :: 0 <= i < |maps| ==> MapOk(maps[i].subject, maps[i].target)
    ensures Rewritten(maps, input, cap).Some? ==> Plain(Rewritten(maps, input, cap).value)
  {
    hide Plain, MapOk, Catch, Expand;
    if maps != [] {
      if Catch(maps[0].subject, input, []).Some? {
        RewriteIsPlain(maps[0].subject, maps[0].target, input, cap);
      } else {
        MapsKeepPlain(maps[1..], input, cap);
      }
    }
  }

  /** In every reachable state, an account's maps turn a plain subject into a plain one. */
  lemma RewrittenIsPlain(accounts: seq<Account>, perms: seq<Perms>, mapTotal: nat, account: string, input: string,
                         cap: nat)
    requires Inv(accounts, perms, mapTotal) && Plain(input)
    ensures var r := Rewritten(RowFor(perms, account).maps, input, cap); r.Some? ==> Plain(r.value)
  {
    hide Plain, MapOk, Rewritten, RowFor, RulesOk;
    RowForOk(accounts, perms, mapTotal, account);
    MapsKeepPlain(RowFor(perms, account).maps, input, cap);
  }

  /** Any run of the manager's operations ends in a state of which all of this is true. */
  method AnyRun(mgr: AccountManager)
    requires mgr.Valid()
    modifies mgr
    ensures mgr.Valid()
  {
    hide Inv, Active;
    var n: nat := *;
    while n > 0
      invariant mgr.Valid()
    {
      AnyOperation(mgr);
      n := n - 1;
    }
  }

  method AnyOperation(mgr: AccountManager)
    requires mgr.Valid()
    modifies mgr
    ensures mgr.Valid()
  {
    hide Inv, Active, AclOk, MapOk, SetRow, PutOrDrop, RowFor, RowOf, Keep, Upsert, MapIndex, Gone, AfterDelete;
    var choice: int, a: string, b: string, c: string, flag: bool := *, *, *, *, *;
    match choice {
      case 0 => var ok := mgr.Create(a);
      case 1 => var ok := mgr.Ensure(a);
      case 2 => var ok := mgr.Delete(a);
      case 3 => var ok := mgr.AddRule(flag, a, b, c);
      case 4 => var ok := mgr.RemoveRule(flag, a, b);
      case 5 => var ok := mgr.AddMap(a, b, c);
      case _ => var ok := mgr.RemoveMap(a, b);
    }
  }
}
