/**
 * The account manager (src/enterprise/cmq_account.c): accounts that are created, deleted and
 * reclaimed, and a table of permission rows that must stay consistent with them. Counters,
 * epochs and limits of an account are not part of this model.
 */
module Accounts {
  import opened Common
  import opened Subjects

  const ACCOUNT_MAX: nat := 128
  const NAME_SIZE: nat := 64
  const MAX_EXPORTS: nat := 32
  const MAX_IMPORTS: nat := 32
  const MAX_MAPS: nat := 16

  datatype Account = Account(name: string, active: bool)

  /**
   * A rule on a subject pattern. The target of an export is the account it is for, that of an
   * import the account it is from, either perhaps "*"; that of a map is its destination.
   */
  datatype Rule = Rule(subject: string, target: string)
  datatype Perms = Perms(account: string, exports: seq<Rule>, imports: seq<Rule>, maps: seq<Rule>)

  predicate NameOk(n: string) { 0 < |n| < NAME_SIZE }

  // ---- accounts ----

  predicate Active(accounts: seq<Account>, name: string) {
    Account(name, true) in accounts
  }

  predicate AccountsOk(accounts: seq<Account>) {
    && |accounts| <= ACCOUNT_MAX
    && (forall i :: 0 <= i < |accounts| ==> NameOk(accounts[i].name))
    && forall i, j :: 0 <= i < j < |accounts| ==> accounts[i].name != accounts[j].name
  }

  predicate PeerOk(accounts: seq<Account>, peer: string) { peer == "*" || Active(accounts, peer) }

  // ---- permission rows ----

  predicate Empty(r: Perms) { r.exports == [] && r.imports == [] && r.maps == [] }

  predicate RulesOk(accounts: seq<Account>, rules: seq<Rule>, limit: nat) {
    && |rules| <= limit
    && (forall i :: 0 <= i < |rules| ==>
          AclOk(rules[i].subject) && NameOk(rules[i].target) && PeerOk(accounts, rules[i].target))
    && forall i, j :: 0 <= i < j < |rules| ==> rules[i] != rules[j]
  }

  predicate MapsOk(maps: seq<Rule>) {
    && |maps| <= MAX_MAPS
    && (forall i :: 0 <= i < |maps| ==> MapOk(maps[i].subject, maps[i].target))
    && forall i, j :: 0 <= i < j < |maps| ==> maps[i].subject != maps[j].subject
  }

  /** A row: owned by an active account, not empty, without duplicates or dangling peers. */
  predicate RowOk(accounts: seq<Account>, r: Perms) {
    && Active(accounts, r.account) && !Empty(r)
    && RulesOk(accounts, r.exports, MAX_EXPORTS) && RulesOk(accounts, r.imports, MAX_IMPORTS) && MapsOk(r.maps)
  }

  function MapTotal(perms: seq<Perms>): nat {
    if perms == [] then 0 else MapTotal(perms[..|perms| - 1]) + |perms[|perms| - 1].maps|
  }

  predicate Rows(perms: seq<Perms>) {
    forall i, j :: 0 <= i < j < |perms| ==> perms[i].account != perms[j].account
  }

  predicate Inv(accounts: seq<Account>, perms: seq<Perms>, mapTotal: nat) {
    && AccountsOk(accounts)
    && |perms| <= ACCOUNT_MAX && Rows(perms) && mapTotal == MapTotal(perms)
    && forall i :: 0 <= i < |perms| ==> RowOk(accounts, perms[i])
  }

  // ---- the table never fills up ----

  function Names(s: seq<string>): set<string> {
    if s == [] then {} else Names(s[..|s| - 1]) + {s[|s| - 1]}
  }

  lemma {:induction false} NamesIn(s: seq<string>)
    ensures forall x :: x in Names(s) <==> x in s
    ensures |Names(s)| <= |s|
  {
    if s != [] {
      NamesIn(s[..|s| - 1]);
      assert s == s[..|s| - 1] + [s[|s| - 1]];
    }
  }

  lemma {:induction false} NamesDistinct(s: seq<string>)
    requires forall i, j :: 0 <= i < j < |s| ==> s[i] != s[j]
    ensures |Names(s)| == |s|
  {
    if s != [] {
      NamesDistinct(s[..|s| - 1]);
      NamesIn(s[..|s| - 1]);
    }
  }

  lemma {:induction false} SubsetSize(a: set<string>, b: set<string>)
    requires a <= b
    ensures |a| <= |b|
  {
    if a != {} {
      var x :| x in a;
      SubsetSize(a - {x}, b - {x});
    }
  }

  lemma Fewer(owners: seq<string>, all: seq<string>, name: string)
    requires forall i, j :: 0 <= i < j < |owners| ==> owners[i] != owners[j]
    requires name in all && name !in owners && forall i :: 0 <= i < |owners| ==> owners[i] in all
    ensures |owners| < |all|
  {
    hide Names;
    NamesDistinct(owners);
    NamesIn(owners);
    NamesIn(all);
    assert Names(owners) + {name} <= Names(all);
    SubsetSize(Names(owners) + {name}, Names(all));
  }

  /** An active account without a row: there are fewer rows than accounts. */
  lemma RoomForRow(accounts: seq<Account>, perms: seq<Perms>, mapTotal: nat, name: string)
    requires Inv(accounts, perms, mapTotal) && Active(accounts, name)
    requires forall i :: 0 <= i < |perms| ==> perms[i].account != name
    ensures |perms| < |accounts| <= ACCOUNT_MAX
  {
    hide RowOk, Active, NameOk, MapTotal;
    var owners := seq(|perms|, i requires 0 <= i < |perms| => perms[i].account);
    var all := seq(|accounts|, i requires 0 <= i < |accounts| => accounts[i].name);
    forall i | 0 <= i < |owners| ensures owners[i] in all {
      RowActive(accounts, perms[i]);
      ActiveListed(accounts, owners[i], all);
    }
    ActiveListed(accounts, name, all);
    Fewer(owners, all, name);
  }

  lemma RowActive(accounts: seq<Account>, r: Perms)
    requires RowOk(accounts, r)
    ensures Active(accounts, r.account)
  {
  }

  lemma ActiveListed(accounts: seq<Account>, x: string, all: seq<string>)
    requires Active(accounts, x) && |all| == |accounts| && forall i :: 0 <= i < |all| ==> all[i] == accounts[i].name
    ensures x in all
  {
    var k :| 0 <= k < |accounts| && accounts[k] == Account(x, true);
    assert all[k] == x;
  }

  // ---- changing one row ----

  lemma {:induction false} MapTotalUpdate(perms: seq<Perms>, i: nat, r: Perms)
    requires i < |perms|
    ensures MapTotal(perms[i := r]) == MapTotal(perms) - |perms[i].maps| + |r.maps|
    ensures |perms[i].maps| <= MapTotal(perms)
  {
    var n := |perms| - 1;
    if i == n {
      assert perms[i := r][..n] == perms[..n];
    } else {
      MapTotalUpdate(perms[..n], i, r);
      assert perms[i := r][..n] == perms[..n][i := r];
    }
  }

  lemma {:induction false} MapTotalRemove(perms: seq<Perms>, i: nat)
    requires i < |perms|
    ensures MapTotal(perms[..i] + perms[i + 1..]) == MapTotal(perms) - |perms[i].maps|
  {
    var n := |perms| - 1;
    var q := perms[..i] + perms[i + 1..];
    if i == n {
      assert q == perms[..n];
    } else {
      MapTotalRemove(perms[..n], i);
      assert q[..|q| - 1] == perms[..n][..i] + perms[..n][i + 1..];
      assert q[|q| - 1] == perms[n];
    }
  }

  lemma UpdateKeeps(accounts: seq<Account>, perms: seq<Perms>, mapTotal: nat, i: nat, r: Perms)
    requires Inv(accounts, perms, mapTotal) && i < |perms|
    requires r.account == perms[i].account && RowOk(accounts, r)
    ensures |perms[i].maps| <= mapTotal
    ensures Inv(accounts, perms[i := r], mapTotal - |perms[i].maps| + |r.maps|)
  {
    hide RowOk, MapTotal;
    MapTotalUpdate(perms, i, r);
  }

  lemma RemoveKeeps(accounts: seq<Account>, perms: seq<Perms>, mapTotal: nat, i: nat)
    requires Inv(accounts, perms, mapTotal) && i < |perms|
    ensures |perms[i].maps| <= mapTotal
    ensures Inv(accounts, perms[..i] + perms[i + 1..], mapTotal - |perms[i].maps|)
  {
    hide RowOk, MapTotal;
    MapTotalUpdate(perms, i, perms[i]);
    MapTotalRemove(perms, i);
  }

  lemma AppendKeeps(accounts: seq<Account>, perms: seq<Perms>, mapTotal: nat, r: Perms)
    requires Inv(accounts, perms, mapTotal) && RowOk(accounts, r)
    requires forall i :: 0 <= i < |perms| ==> perms[i].account != r.account
    ensures Inv(accounts, perms + [r], mapTotal + |r.maps|)
  {
    hide RowOk, AccountsOk, Active;
    RowActive(accounts, r);
    RoomForRow(accounts, perms, mapTotal, r.account);
    assert (perms + [r])[..|perms|] == perms;
    hide MapTotal;
  }

  // ---- changing the accounts ----

  /** More active accounts leave every row in order. */
  lemma RowStays(a: seq<Account>, b: seq<Account>, r: Perms)
    requires RowOk(a, r) && forall n: string :: Active(a, n) ==> Active(b, n)
    ensures RowOk(b, r)
  {
    hide AclOk, MapsOk;
  }

  lemma AccountsKeep(a: seq<Account>, b: seq<Account>, perms: seq<Perms>, mapTotal: nat)
    requires Inv(a, perms, mapTotal) && AccountsOk(b) && forall n: string :: Active(a, n) ==> Active(b, n)
    ensures Inv(b, perms, mapTotal)
  {
    hide RowOk, MapTotal;
    forall i | 0 <= i < |perms| ensures RowOk(b, perms[i]) { RowStays(a, b, perms[i]); }
  }

  // ---- dropping rules ----

  predicate Hits(r: Rule, byTarget: bool, key: string) {
    if byTarget then r.target == key else r.subject == key
  }

  /** The rules without those that have this subject, or this target. */
  function Keep(rules: seq<Rule>, byTarget: bool, key: string): seq<Rule> {
    if rules == [] then []
    else (if Hits(rules[0], byTarget, key) then [] else [rules[0]]) + Keep(rules[1..], byTarget, key)
  }

  predicate Distinct(rules: seq<Rule>) { forall i, j :: 0 <= i < j < |rules| ==> rules[i] != rules[j] }
  predicate DistinctSubjects(rules: seq<Rule>) {
    forall i, j :: 0 <= i < j < |rules| ==> rules[i].subject != rules[j].subject
  }

  lemma {:induction false} KeepIs(rules: seq<Rule>, byTarget: bool, key: string)
    ensures forall x :: x in Keep(rules, byTarget, key) <==> x in rules && !Hits(x, byTarget, key)
    ensures |Keep(rules, byTarget, key)| <= |rules|
    ensures Distinct(rules) ==> Distinct(Keep(rules, byTarget, key))
    ensures DistinctSubjects(rules) ==> DistinctSubjects(Keep(rules, byTarget, key))
  {
    hide Distinct, DistinctSubjects;
    if rules == [] {
      NothingTwice();
    } else {
      var x, rest, kept := rules[0], rules[1..], Keep(rules[1..], byTarget, key);
      KeepIs(rest, byTarget, key);
      assert rules == [x] + rest;
      DistinctCons(x, rest);
      DistinctCons(x, kept);
      assert [] + kept == kept;
    }
  }

  lemma NothingTwice()
    ensures Distinct([]) && DistinctSubjects([])
  {
  }

  predicate NoDup<T(==)>(s: seq<T>) { forall i, j :: 0 <= i < j < |s| ==> s[i] != s[j] }

  lemma NoDupCons<T>(x: T, s: seq<T>)
    ensures NoDup([x] + s) <==> NoDup(s) && x !in s
  {
    var a := [x] + s;
    if NoDup(a) {
      forall i, j | 0 <= i < j < |s| ensures s[i] != s[j] { assert a[i + 1] == s[i] && a[j + 1] == s[j]; }
      forall k | 0 <= k < |s| ensures s[k] != x { assert a[0] == x && a[k + 1] == s[k]; }
    }
    if NoDup(s) && x !in s {
      forall i, j | 0 <= i < j < |a| ensures a[i] != a[j] { assert a[j] == s[j - 1]; }
    }
  }

  function SubjectsOf(rules: seq<Rule>): seq<string> {
    seq(|rules|, i requires 0 <= i < |rules| => rules[i].subject)
  }

  function OwnersOf(rows: seq<Perms>): seq<string> {
    seq(|rows|, i requires 0 <= i < |rows| => rows[i].account)
  }

  lemma DistinctCons(x: Rule, s: seq<Rule>)
    ensures Distinct([x] + s) <==> Distinct(s) && x !in s
    ensures DistinctSubjects([x] + s) <==> DistinctSubjects(s) && forall y :: y in s ==> y.subject != x.subject
  {
    NoDupCons(x, s);
    NoDupCons(x.subject, SubjectsOf(s));
    assert SubjectsOf([x] + s) == [x.subject] + SubjectsOf(s);
    hide NoDup;
    SubjectsDistinct([x] + s);
    SubjectsDistinct(s);
    assert Distinct([x] + s) == NoDup([x] + s) && Distinct(s) == NoDup(s) by { DistinctIs([x] + s); DistinctIs(s); }
    assert x.subject in SubjectsOf(s) <==> exists y :: y in s && y.subject == x.subject by { SubjectIn(s, x.subject); }
  }

  lemma DistinctIs(s: seq<Rule>)
    ensures Distinct(s) == NoDup(s)
  {
  }

  lemma SubjectsDistinct(s: seq<Rule>)
    ensures DistinctSubjects(s) == NoDup(SubjectsOf(s))
  {
    var k := SubjectsOf(s);
    assert forall i :: 0 <= i < |s| ==> k[i] == s[i].subject;
  }

  lemma SubjectIn(s: seq<Rule>, x: string)
    ensures x in SubjectsOf(s) <==> exists y :: y in s && y.subject == x
  {
    var k := SubjectsOf(s);
    if x in k {
      var i :| 0 <= i < |k| && k[i] == x;
      assert s[i] in s;
    }
    if y :| y in s && y.subject == x {
      var i :| 0 <= i < |s| && s[i] == y;
      assert k[i] == x;
    }
  }

  lemma RowsCons(r: Perms, s: seq<Perms>)
    ensures Rows([r] + s) <==> Rows(s) && forall q :: q in s ==> q.account != r.account
  {
    NoDupCons(r.account, OwnersOf(s));
    assert OwnersOf([r] + s) == [r.account] + OwnersOf(s);
    hide NoDup;
    OwnersDistinct([r] + s);
    OwnersDistinct(s);
    OwnerIn(s, r.account);
  }

  lemma OwnersDistinct(s: seq<Perms>)
    ensures Rows(s) == NoDup(OwnersOf(s))
  {
    var k := OwnersOf(s);
    assert forall i :: 0 <= i < |s| ==> k[i] == s[i].account;
  }

  lemma OwnerIn(s: seq<Perms>, x: string)
    ensures x in OwnersOf(s) <==> exists q :: q in s && q.account == x
  {
    var k := OwnersOf(s);
    if x in k {
      var i :| 0 <= i < |k| && k[i] == x;
      assert s[i] in s;
    }
    if q :| q in s && q.account == x {
      var i :| 0 <= i < |s| && s[i] == q;
      assert k[i] == x;
    }
  }

  lemma KeepSnoc(rules: seq<Rule>, i: nat, byTarget: bool, key: string)
    requires i < |rules|
    ensures Keep(rules[i..], byTarget, key) == (if Hits(rules[i], byTarget, key) then [] else [rules[i]]) +
            Keep(rules[i + 1..], byTarget, key)
  {
    assert rules[i..][1..] == rules[i + 1..];
  }

  /** The removing loops: later elements move up over a removed one. */
  method DropRules(rules: seq<Rule>, byTarget: bool, key: string) returns (r: seq<Rule>, removed: nat)
    ensures r == Keep(rules, byTarget, key) && |r| + removed == |rules|
  {
    hide Keep;
    r, removed := rules, 0;
    var i: nat := 0;
    assert r[..0] + Keep(r[0..], byTarget, key) == Keep(rules, byTarget, key) by { assert r[0..] == rules; }
    while i < |r|
      invariant i <= |r| && |r| + removed == |rules|
      invariant r[..i] + Keep(r[i..], byTarget, key) == Keep(rules, byTarget, key)
      decreases |r| - i
    {
      KeepSnoc(r, i, byTarget, key);
      if Hits(r[i], byTarget, key) {
        var q := r[..i] + r[i + 1..];
        assert q[..i] == r[..i] && q[i..] == r[i + 1..];
        r, removed := q, removed + 1;
      } else {
        assert r[..i + 1] == r[..i] + [r[i]];
        i := i + 1;
      }
    }
    KeepNone(r[i..], byTarget, key);
    assert r[..i] == r;
  }

  lemma KeepNone(rules: seq<Rule>, byTarget: bool, key: string)
    requires rules == []
    ensures Keep(rules, byTarget, key) == []
  {
  }

  // ---- what a deletion does to the rows ----

  function ScrubRow(r: Perms, peer: string): Perms {
    r.(exports := Keep(r.exports, true, peer), imports := Keep(r.imports, true, peer))
  }

  /** Rows of others lose their rules that name the peer, and go when nothing is left. */
  function Scrub(rows: seq<Perms>, peer: string): seq<Perms> {
    if rows == [] then []
    else
      (if rows[0].account == peer then [rows[0]]
       else if Empty(ScrubRow(rows[0], peer)) then [] else [ScrubRow(rows[0], peer)]) + Scrub(rows[1..], peer)
  }

  /** The accounts with one of them gone. */
  ghost predicate Gone(a: seq<Account>, b: seq<Account>, name: string) {
    !Active(b, name) && forall n :: n != name ==> (Active(b, n) <==> Active(a, n))
  }

  lemma ScrubRules(a: seq<Account>, b: seq<Account>, name: string, rules: seq<Rule>, limit: nat)
    requires Gone(a, b, name) && RulesOk(a, rules, limit)
    ensures RulesOk(b, Keep(rules, true, name), limit)
    ensures name == "*" ==> RulesOk(b, rules, limit)
  {
    hide AclOk, Keep;
    KeepIs(rules, true, name);
    var k := Keep(rules, true, name);
    forall i | 0 <= i < |k| ensures AclOk(k[i].subject) && NameOk(k[i].target) && PeerOk(b, k[i].target) {
      assert k[i] in k;
      var j :| 0 <= j < |rules| && rules[j] == k[i];
    }
  }

  lemma ScrubbedRow(a: seq<Account>, b: seq<Account>, name: string, r: Perms)
    requires Gone(a, b, name) && RowOk(a, r) && r.account != name
    ensures !Empty(ScrubRow(r, name)) ==> RowOk(b, ScrubRow(r, name))
    ensures name == "*" ==> RowOk(b, r)
  {
    hide RulesOk, MapsOk, Keep;
    ScrubRules(a, b, name, r.exports, MAX_EXPORTS);
    ScrubRules(a, b, name, r.imports, MAX_IMPORTS);
  }

  lemma {:induction false} MapTotalCons(r: Perms, rows: seq<Perms>)
    ensures MapTotal([r] + rows) == |r.maps| + MapTotal(rows)
  {
    var all := [r] + rows;
    if rows == [] {
      assert all[..0] == [];
    } else {
      var n := |rows| - 1;
      MapTotalCons(r, rows[..n]);
      assert all[..|all| - 1] == [r] + rows[..n];
    }
  }

  /** The row of an account is among these. */
  predicate HasRow(rows: seq<Perms>, account: string) { exists q :: q in rows && q.account == account }

  /** Scrubbing keeps the rows in order, one per account, and loses no map. */
  lemma {:induction false} ScrubKeeps(a: seq<Account>, b: seq<Account>, name: string, rows: seq<Perms>)
    requires Gone(a, b, name) && Rows(rows)
    requires forall r :: r in rows ==> RowOk(a, r) && r.account != name
    ensures var s := Scrub(rows, name);
            && |s| <= |rows| && Rows(s) && MapTotal(s) == MapTotal(rows)
            && (forall r :: r in s ==> RowOk(b, r) && HasRow(rows, r.account))
  {
    hide RowOk, Gone, Rows, MapTotal, Empty, ScrubRow;
    if rows == [] {
      NoRows();
    } else {
      var r, rest := rows[0], rows[1..];
      var q, s := ScrubRow(r, name), Scrub(rest, name);
      assert rows == [r] + rest;
      RowsCons(r, rest);
      ScrubKeeps(a, b, name, rest);
      ScrubbedRow(a, b, name, r);
      SameRow(r, name);
      RowsCons(q, s);
      MapTotalCons(r, rest);
      MapTotalCons(q, s);
      assert [] + s == s;
      assert Scrub(rows, name) == (if Empty(q) then s else [q] + s);
      forall x | x in Scrub(rows, name) ensures RowOk(b, x) && HasRow(rows, x.account) {
        if x in s {
          var y :| y in rest && y.account == x.account;
          assert y in rows;
        }
      }
    }
  }

  lemma NoRows()
    ensures Rows([]) && MapTotal([]) == 0
  {
  }

  lemma SameRow(r: Perms, name: string)
    ensures ScrubRow(r, name).account == r.account && ScrubRow(r, name).maps == r.maps
    ensures Empty(ScrubRow(r, name)) ==> r.maps == []
  {
  }

  // ---- the code ----

  class AccountManager {
    var accounts: seq<Account>
    var perms: seq<Perms>
    var mapTotal: nat

    ghost predicate Valid()
      reads this
    {
      Inv(accounts, perms, mapTotal)
    }

    constructor ()
      ensures Valid() && accounts == [] && perms == [] && mapTotal == 0
    {
      accounts, perms, mapTotal := [], [], 0;
    }

    /** The slot with a name; |accounts| for none. */
    method FindAccount(name: string) returns (i: nat)
      ensures i <= |accounts| && (i < |accounts| ==> accounts[i].name == name)
      ensures i == |accounts| ==> forall j :: 0 <= j < |accounts| ==> accounts[j].name != name
    {
      i := 0;
      while i < |accounts|
        invariant i <= |accounts| && forall j :: 0 <= j < i ==> accounts[j].name != name
      {
        if accounts[i].name == name { return; }
        i := i + 1;
      }
    }

    /** account_is_active. */
    method IsActive(name: string) returns (r: bool)
      ensures r <==> Active(accounts, name)
    {
      var i := 0;
      while i < |accounts|
        invariant 0 <= i <= |accounts| && forall j :: 0 <= j < i ==> accounts[j] != Account(name, true)
      {
        if accounts[i].active && accounts[i].name == name {
          assert accounts[i] == Account(name, true);
          return true;
        }
        i := i + 1;
      }
      return false;
    }

    /** A slot whose account is deleted; |accounts| for none. */
    method FindInactive() returns (i: nat)
      ensures i <= |accounts| && (i < |accounts| ==> !accounts[i].active)
      ensures i == |accounts| ==> forall j :: 0 <= j < |accounts| ==> accounts[j].active
    {
      i := 0;
      while i < |accounts|
        invariant i <= |accounts| && forall j :: 0 <= j < i ==> accounts[j].active
      {
        if !accounts[i].active { return; }
        i := i + 1;
      }
    }

    /** After an activation: this name is active, and the others are as before. */
    ghost predicate Activated(before: seq<Account>, name: string)
      reads this
    {
      Active(accounts, name) && forall n :: n != name ==> (Active(accounts, n) <==> Active(before, n))
    }

    /** Put an account into slot i, whose account, if any, is not active. */
    method Occupy(i: nat, name: string)
      requires Valid() && NameOk(name) && i <= |accounts| && i < ACCOUNT_MAX
      requires i < |accounts| ==> !accounts[i].active
      requires forall j :: 0 <= j < |accounts| && j != i ==> accounts[j].name != name
      modifies this`accounts
      ensures Valid() && Activated(old(accounts), name)
    {
      hide RowOk, MapTotal;
      ghost var before := accounts;
      var a := Account(name, true);
      accounts := if i < |accounts| then accounts[i := a] else accounts + [a];
      Reactivated(before, accounts, i, name);
      AccountsKeep(before, accounts, perms, mapTotal);
    }

    /** Drop a row and move the later ones up. */
    method RemoveRow(i: nat)
      requires i < |perms|
      modifies this`perms
      ensures perms == old(perms)[..i] + old(perms)[i + 1..]
    {
      perms := perms[..i] + perms[i + 1..];
    }

    /** find_perms. */
    method FindPerms(name: string) returns (i: nat)
      ensures i == RowOf(perms, name)
    {
      i := 0;
      while i < |perms|
        invariant i <= |perms| && forall j :: 0 <= j < i ==> perms[j].account != name
      {
        if perms[i].account == name { return; }
        i := i + 1;
      }
    }

    /** clear_account_perms_unlocked. */
    method ClearPerms(name: string)
      requires forall i :: 0 <= i < |perms| ==> |perms[i].maps| <= mapTotal
      modifies this`perms, this`mapTotal
      ensures perms == Others(old(perms), name)
      ensures var i := RowOf(old(perms), name);
              mapTotal == old(mapTotal) - if i < |old(perms)| then |old(perms)[i].maps| else 0
    {
      var i := FindPerms(name);
      if i < |perms| {
        mapTotal := mapTotal - |perms[i].maps|;
        RemoveRow(i);
      }
    }

    /** purge_peer_acl_refs_unlocked: every other row loses its rules that name the peer. */
    method PurgePeer(peer: string)
      modifies this`perms
      ensures perms == if peer == "" || peer == "*" then old(perms) else Scrub(old(perms), peer)
    {
      if peer == "" || peer == "*" { return; }
      hide Keep, Scrub, ScrubRow, Empty;
      ghost var before := perms;
      ghost var k: nat, done: seq<Perms> := 0, [];
      var i: nat := 0;
      assert before[0..] == before && done + Scrub(before, peer) == Scrub(before, peer);
      while i < |perms|
        invariant i == |done| <= |perms| && k <= |before| && perms == done + before[k..]
        invariant done + Scrub(before[k..], peer) == Scrub(before, peer)
        decreases |perms| - i
      {
        ScrubAt(before, k, peer);
        assert perms[i] == before[k];
        var gone := false;
        ghost var piece := [perms[i]];
        if perms[i].account != peer {
          gone := ScrubOne(i, peer);
          piece := if gone then [] else [ScrubRow(before[k], peer)];
        }
        Splice(done, before, k, piece);
        Glue(done, piece, Scrub(before[k + 1..], peer));
        done, k := done + piece, k + 1;
        if !gone { i := i + 1; }
      }
      ScrubEnd(before[k..], peer);
    }

    /** One row: its rules that name the peer go, and it goes itself if that empties it. */
    method ScrubOne(i: nat, peer: string) returns (gone: bool)
      requires i < |perms|
      modifies this`perms
      ensures gone <==> Empty(ScrubRow(old(perms)[i], peer))
      ensures perms == old(perms)[..i] + (if gone then [] else [ScrubRow(old(perms)[i], peer)]) + old(perms)[i + 1..]
    {
      hide Keep;
      var exports, n := DropRules(perms[i].exports, true, peer);
      var imports, m := DropRules(perms[i].imports, true, peer);
      perms := perms[i := perms[i].(exports := exports, imports := imports)];
      gone := exports == [] && imports == [] && perms[i].maps == [];
      if gone { RemoveRow(i); }
    }

    /** account_delete_impl: the account, its row and every mention of it go together. */
    method Delete(name: string) returns (ok: bool)
      requires Valid()
      modifies this
      ensures Valid() && (ok <==> Active(old(accounts), name))
      ensures ok ==> Gone(old(accounts), accounts, name) && perms == AfterDelete(old(perms), name)
      ensures !ok ==> accounts == old(accounts) && perms == old(perms) && mapTotal == old(mapTotal)
    {
      hide RowOk, MapTotal, RowOf, Scrub;
      var i := 0;
      while i < |accounts|
        invariant 0 <= i <= |accounts| && unchanged(this)
        invariant forall j :: 0 <= j < i ==> accounts[j] != Account(name, true)
      {
        if accounts[i].active && accounts[i].name == name {
          assert accounts[i] == Account(name, true);
          Deactivated(accounts, i);
          ghost var a := accounts;
          accounts := accounts[i := accounts[i].(active := false)];
          DeleteKeeps(a, accounts, perms, mapTotal, name);
          MapsBounded(perms, mapTotal);
          ClearPerms(name);
          PurgePeer(name);
          return true;
        }
        i := i + 1;
      }
      return false;
    }

    /** A name that no slot has: append while there is room, then reclaim a deleted slot. */
    method Enter(name: string) returns (ok: bool)
      requires Valid() && NameOk(name) && forall j :: 0 <= j < |accounts| ==> accounts[j].name != name
      modifies this
      ensures Valid() && perms == old(perms) && mapTotal == old(mapTotal)
      ensures ok <==> |old(accounts)| < ACCOUNT_MAX || exists j :: 0 <= j < |old(accounts)| && !old(accounts)[j].active
      ensures if ok then Activated(old(accounts), name) else accounts == old(accounts)
    {
      hide RowOk, MapTotal, Active, Scrub, RowOf;
      var i := |accounts|;
      if |accounts| >= ACCOUNT_MAX {
        i := FindInactive();
        if i == |accounts| { return false; }
        OneSlot(accounts, i);
        NothingOf(accounts, perms, mapTotal, accounts[i].name);
        MapsBounded(perms, mapTotal);
        ClearPerms(accounts[i].name);
        PurgePeer(accounts[i].name);
      }
      Occupy(i, name);
      return true;
    }

    /** account_create_impl: a deleted account of that name comes back. */
    method Create(name: string) returns (ok: bool)
      requires Valid()
      modifies this
      ensures Valid() && perms == old(perms) && mapTotal == old(mapTotal)
      ensures ok <==> NameOk(name) && (Known(old(accounts), name) || HasRoom(old(accounts)))
      ensures if ok then Activated(old(accounts), name) else accounts == old(accounts)
    {
      hide RowOk, MapTotal;
      if !NameOk(name) { return false; }
      var i := FindAccount(name);
      if i < |accounts| {
        if !accounts[i].active { Occupy(i, name); }
        else { assert accounts[i] == Account(name, true); }
        return true;
      }
      ok := Enter(name);
    }

    /** account_ensure_impl: a deleted account of that name is refused. */
    method Ensure(name: string) returns (ok: bool)
      requires Valid()
      modifies this
      ensures Valid() && perms == old(perms) && mapTotal == old(mapTotal)
      ensures ok <==> NameOk(name) && if Known(old(accounts), name) then Active(old(accounts), name) else
              HasRoom(old(accounts))
      ensures if ok then Activated(old(accounts), name) else accounts == old(accounts)
    {
      hide RowOk, MapTotal;
      if !NameOk(name) { return false; }
      var i := FindAccount(name);
      if i < |accounts| {
        OneSlot(accounts, i);
        return accounts[i].active;
      }
      ok := Enter(name);
    }

    // ---- editing rows ----

    /** find_or_create_perms: the table is never full when an active account needs a row. */
    method FindOrCreate(account: string) returns (i: nat)
      requires Valid() && Active(accounts, account)
      modifies this`perms
      ensures i == RowOf(old(perms), account) < |perms|
      ensures perms == SetRow(old(perms), account, RowFor(old(perms), account))
    {
      hide RowOk, MapTotal, RowOf, Active;
      i := FindPerms(account);
      if i == |perms| {
        NoRow(perms, account);
        RoomForRow(accounts, perms, mapTotal, account);
        var full := |perms| >= ACCOUNT_MAX;
        assert !full;
        perms := perms + [Perms(account, [], [], [])];
      }
    }

    /** account_add_export_impl and account_add_import_impl. */
    method AddRule(exporting: bool, account: string, subject: string, target: string) returns (ok: bool)
      requires Valid()
      modifies this`perms
      ensures Valid()
      ensures var row := RowFor(old(perms), account); var rule := Rule(subject, target);
              && (ok <==> NameOk(account) && AclOk(subject) && NameOk(target) && Active(accounts, account) &&
                          PeerOk(accounts, target) &&
                          (rule in RulesOf(row, exporting) || |RulesOf(row, exporting)| < MAX_EXPORTS))
              && perms == if ok && rule !in RulesOf(row, exporting)
                          then SetRow(old(perms), account, WithRules(row, exporting, RulesOf(row, exporting) + [rule]))
                          else old(perms)
    {
      hide AclOk, RowOf, RowOk, MapTotal, Active;
      var subjectOk := AclSubjectOk(subject);
      if !NameOk(account) || !subjectOk || !NameOk(target) { return false; }
      var active := IsActive(account);
      var peer := IsActive(target);
      if !active || !(target == "*" || peer) { return false; }
      ghost var before, row := perms, RowFor(perms, account);
      SetSame(before, account);
      var i := FindOrCreate(account);
      var rules := RulesOf(perms[i], exporting);
      RowNow(before, account, i);
      EmptyRow(before, account);
      if Rule(subject, target) in rules {
        return true;
      }
      if |rules| >= MAX_EXPORTS { return false; }
      perms := perms[i := WithRules(perms[i], exporting, rules + [Rule(subject, target)])];
      AddedRule(accounts, before, mapTotal, account, exporting, Rule(subject, target));
      SetTwice(before, account, row, WithRules(row, exporting, rules + [Rule(subject, target)]));
      return true;
    }

    /** account_remove_export_impl and account_remove_import_impl. */
    method RemoveRule(exporting: bool, account: string, subject: string) returns (ok: bool)
      requires Valid()
      modifies this`perms
      ensures Valid()
      ensures var i := RowOf(old(perms), account);
              && (ok <==> i < |old(perms)| &&
                          exists e :: e in RulesOf(old(perms)[i], exporting) && e.subject == subject)
              && perms == if ok then PutOrDrop(old(perms), i,
                  WithRules(old(perms)[i], exporting, Keep(RulesOf(old(perms)[i], exporting), false, subject)))
                          else old(perms)
    {
      hide RowOf, RowOk, MapTotal, Keep;
      var i := FindPerms(account);
      if i == |perms| { return false; }
      var rules := RulesOf(perms[i], exporting);
      var kept, removed := DropRules(rules, false, subject);
      KeepCount(rules, false, subject);
      if removed == 0 { return false; }
      var row := WithRules(perms[i], exporting, kept);
      RemovedRule(accounts, perms, mapTotal, i, exporting, subject);
      perms := if Empty(row) then perms[..i] + perms[i + 1..] else perms[i := row];
      return true;
    }

    /** account_add_map_impl: a source that is mapped already gets the new destination. */
    method AddMap(account: string, src: string, dest: string) returns (ok: bool)
      requires Valid()
      modifies this`perms, this`mapTotal
      ensures Valid()
      ensures var row := RowFor(old(perms), account);
              && (ok <==> NameOk(account) && MapOk(src, dest) && Active(accounts, account) &&
                          (MapIndex(row.maps, src) < |row.maps| || |row.maps| < MAX_MAPS))
              && perms == (if ok then SetRow(old(perms), account, row.(maps := Upsert(row.maps, src, dest))) else
                  old(perms))
              && mapTotal == old(mapTotal) + if ok then |Upsert(row.maps, src, dest)| - |row.maps| else 0
    {
      hide AclOk, RowOf, RowOk, MapTotal, Active, DestOk;
      var accepted := MapAccepted(src, dest);
      if !NameOk(account) || !accepted { return false; }
      var active := IsActive(account);
      if !active { return false; }
      ghost var before, row := perms, RowFor(perms, account);
      SetSame(before, account);
      var i := FindOrCreate(account);
      RowNow(before, account, i);
      EmptyRow(before, account);
      var maps := perms[i].maps;
      var k := FindMap(maps, src);
      if k == |maps| && |maps| >= MAX_MAPS { return false; }
      var more := if k < |maps| then maps[k := Rule(src, dest)] else maps + [Rule(src, dest)];
      AddedMap(accounts, before, mapTotal, account, src, dest);
      SetTwice(before, account, row, row.(maps := more));
      perms := perms[i := perms[i].(maps := more)];
      mapTotal := mapTotal + if k < |maps| then 0 else 1;
      return true;
    }

    /** account_remove_map_impl. */
    method RemoveMap(account: string, src: string) returns (ok: bool)
      requires Valid()
      modifies this`perms, this`mapTotal
      ensures Valid()
      ensures var i := RowOf(old(perms), account);
              && (ok <==> i < |old(perms)| && exists e :: e in old(perms)[i].maps && e.subject == src)
              && perms == if ok then PutOrDrop(old(perms), i,
                  old(perms)[i].(maps := Keep(old(perms)[i].maps, false, src))) else old(perms)
    {
      hide RowOf, RowOk, MapTotal, Keep;
      var i := FindPerms(account);
      if i == |perms| { return false; }
      var kept, removed := DropRules(perms[i].maps, false, src);
      KeepCount(perms[i].maps, false, src);
      if removed == 0 { return false; }
      RemovedMap(accounts, perms, mapTotal, i, src);
      mapTotal := mapTotal - removed;
      var row := perms[i].(maps := kept);
      perms := if Empty(row) then perms[..i] + perms[i + 1..] else perms[i := row];
      return true;
    }
  }

  /** The checks on a map before the lock is taken. */
  method MapAccepted(src: string, dest: string) returns (ok: bool)
    ensures ok <==> MapOk(src, dest)
  {
    hide AclOk, DestOk;
    var srcOk := AclSubjectOk(src);
    var nstar, hasGt := CountSrcWildcards(src);
    var destOk := DestTemplateOk(dest, nstar, hasGt);
    return srcOk && destOk;
  }

  method FindMap(maps: seq<Rule>, src: string) returns (k: nat)
    ensures k == MapIndex(maps, src)
  {
    k := 0;
    while k < |maps|
      invariant k <= |maps| && forall j :: 0 <= j < k ==> maps[j].subject != src
    {
      if maps[k].subject == src { return; }
      k := k + 1;
    }
  }

  /** The map of a source; |maps| for none. */
  function MapIndex(maps: seq<Rule>, src: string): (k: nat)
    ensures k <= |maps| && (k < |maps| ==> maps[k].subject == src)
    ensures forall j :: 0 <= j < k ==> maps[j].subject != src
  {
    if maps == [] then 0
    else
      var k := MapIndex(maps[..|maps| - 1], src);
      if k < |maps| - 1 || maps[|maps| - 1].subject == src then k else |maps|
  }

  function Upsert(maps: seq<Rule>, src: string, dest: string): seq<Rule> {
    var k := MapIndex(maps, src);
    if k < |maps| then maps[k := Rule(src, dest)] else maps + [Rule(src, dest)]
  }

  /** Each map stays in its place; the one for this source gets the new destination, or it comes last. */
  lemma UpsertMeans(maps: seq<Rule>, src: string, dest: string)
    requires DistinctSubjects(maps)
    ensures var u := Upsert(maps, src, dest);
            && |maps| <= |u| <= |maps| + 1
            && (forall i :: 0 <= i < |maps| ==> u[i] == if maps[i].subject == src then Rule(src, dest) else maps[i])
            && (|u| > |maps| <==> forall i :: 0 <= i < |maps| ==> maps[i].subject != src)
            && (|u| > |maps| ==> u[|maps|] == Rule(src, dest))
  {
    var k := MapIndex(maps, src);
    assert k < |maps| ==> maps[k].subject == src;
  }

  lemma AddedMap(accounts: seq<Account>, perms: seq<Perms>, mapTotal: nat, account: string, src: string, dest: string)
    requires Inv(accounts, perms, mapTotal) && Active(accounts, account) && MapOk(src, dest)
    requires var maps := RowFor(perms, account).maps; MapIndex(maps, src) < |maps| || |maps| < MAX_MAPS
    ensures var row := RowFor(perms, account); var maps := Upsert(row.maps, src, dest);
            Inv(accounts, SetRow(perms, account, row.(maps := maps)), mapTotal + |maps| - |row.maps|)
  {
    hide Active, Inv, RowOf, RulesOk, MapOk, SetRow, MapIndex;
    var row := RowFor(perms, account);
    RowForOk(accounts, perms, mapTotal, account);
    RowNow(perms, account, RowOf(perms, account));
    SetRowKeeps(accounts, perms, mapTotal, account, row.(maps := Upsert(row.maps, src, dest)));
  }

  lemma RemovedMap(accounts: seq<Account>, perms: seq<Perms>, mapTotal: nat, i: nat, src: string)
    requires Inv(accounts, perms, mapTotal) && i < |perms|
    ensures var kept := Keep(perms[i].maps, false, src); var n := |perms[i].maps| - |kept|;
            0 <= n <= mapTotal && Inv(accounts, PutOrDrop(perms, i, perms[i].(maps := kept)), mapTotal - n)
  {
    hide AclOk, Active, RowOf, RulesOk, Keep, MapTotal;
    assert RowOk(accounts, perms[i]);
    FewerMaps(perms[i].maps, src);
    var r := perms[i].(maps := Keep(perms[i].maps, false, src));
    if Empty(r) {
      RemoveKeeps(accounts, perms, mapTotal, i);
    } else {
      UpdateKeeps(accounts, perms, mapTotal, i, r);
    }
  }

  lemma FewerMaps(maps: seq<Rule>, src: string)
    requires MapsOk(maps)
    ensures MapsOk(Keep(maps, false, src)) && |Keep(maps, false, src)| <= |maps|
  {
    hide MapOk, Keep;
    KeepIs(maps, false, src);
    var k := Keep(maps, false, src);
    forall i | 0 <= i < |k| ensures MapOk(k[i].subject, k[i].target) {
      assert k[i] in k;
      var j :| 0 <= j < |maps| && maps[j] == k[i];
    }
  }

  /** The row of an account, or an empty one. */
  function RowFor(perms: seq<Perms>, account: string): Perms {
    if RowOf(perms, account) < |perms| then perms[RowOf(perms, account)] else Perms(account, [], [], [])
  }

  function SetRow(perms: seq<Perms>, account: string, r: Perms): seq<Perms> {
    if RowOf(perms, account) < |perms| then perms[RowOf(perms, account) := r] else perms + [r]
  }

  function PutOrDrop(perms: seq<Perms>, i: nat, r: Perms): seq<Perms>
    requires i < |perms|
  {
    if Empty(r) then perms[..i] + perms[i + 1..] else perms[i := r]
  }

  function RulesOf(r: Perms, exporting: bool): seq<Rule> { if exporting then r.exports else r.imports }

  function WithRules(r: Perms, exporting: bool, rules: seq<Rule>): Perms {
    if exporting then r.(exports := rules) else r.(imports := rules)
  }

  lemma NoRow(perms: seq<Perms>, account: string)
    requires RowOf(perms, account) == |perms|
    ensures forall i :: 0 <= i < |perms| ==> perms[i].account != account
  {
  }

  lemma SetSame(perms: seq<Perms>, account: string)
    ensures RowOf(perms, account) < |perms| ==> SetRow(perms, account, RowFor(perms, account)) == perms
  {
  }

  lemma RowNow(before: seq<Perms>, account: string, i: nat)
    requires i == RowOf(before, account)
    ensures var now := SetRow(before, account, RowFor(before, account)); i < |now| && now[i] == RowFor(before, account)
    ensures RowFor(before, account).account == account
  {
  }

  lemma EmptyRow(before: seq<Perms>, account: string)
    ensures RowOf(before, account) == |before| ==> RowFor(before, account) == Perms(account, [], [], [])
  {
  }

  lemma SetTwice(before: seq<Perms>, account: string, a: Perms, b: Perms)
    ensures var i := RowOf(before, account);
            i < |SetRow(before, account, a)| &&
            SetRow(before, account, a)[i := b] == SetRow(before, account, b)
  {
  }

  lemma SetRowKeeps(accounts: seq<Account>, perms: seq<Perms>, mapTotal: nat, account: string, r: Perms)
    requires Inv(accounts, perms, mapTotal) && RowOk(accounts, r) && r.account == account
    ensures var was := RowFor(perms, account);
            |was.maps| <= mapTotal && Inv(accounts, SetRow(perms, account, r), mapTotal - |was.maps| + |r.maps|)
  {
    hide RowOk, MapTotal, Inv;
    if RowOf(perms, account) < |perms| {
      UpdateKeeps(accounts, perms, mapTotal, RowOf(perms, account), r);
    } else {
      AppendKeeps(accounts, perms, mapTotal, r);
    }
  }

  /** The current row of an account is in order, empty or not. */
  predicate PartsOk(accounts: seq<Account>, r: Perms) {
    RulesOk(accounts, r.exports, MAX_EXPORTS) && RulesOk(accounts, r.imports, MAX_IMPORTS) && MapsOk(r.maps)
  }

  lemma RowForOk(accounts: seq<Account>, perms: seq<Perms>, mapTotal: nat, account: string)
    requires Inv(accounts, perms, mapTotal)
    ensures PartsOk(accounts, RowFor(perms, account))
  {
    hide AclOk, MapOk, RowOf;
    var i := RowOf(perms, account);
    if i < |perms| { assert RowOk(accounts, perms[i]); }
  }

  lemma MoreRules(accounts: seq<Account>, rules: seq<Rule>, limit: nat, e: Rule)
    requires RulesOk(accounts, rules, limit) && |rules| < limit && e !in rules
    requires AclOk(e.subject) && NameOk(e.target) && PeerOk(accounts, e.target)
    ensures RulesOk(accounts, rules + [e], limit)
  {
    hide AclOk, Active;
  }

  lemma AddedRule(accounts: seq<Account>, perms: seq<Perms>, mapTotal: nat, account: string, exporting: bool, e: Rule)
    requires Inv(accounts, perms, mapTotal) && Active(accounts, account)
    requires AclOk(e.subject) && NameOk(e.target) && PeerOk(accounts, e.target)
    requires var rules := RulesOf(RowFor(perms, account), exporting); e !in rules && |rules| < MAX_EXPORTS
    ensures var row := RowFor(perms, account);
            Inv(accounts, SetRow(perms, account, WithRules(row, exporting, RulesOf(row, exporting) + [e])), mapTotal)
  {
    hide AclOk, Active, Inv, RowOf, RulesOk, MapsOk, SetRow;
    var row := RowFor(perms, account);
    RowForOk(accounts, perms, mapTotal, account);
    RowNow(perms, account, RowOf(perms, account));
    MoreRules(accounts, RulesOf(row, exporting), MAX_EXPORTS, e);
    SetRowKeeps(accounts, perms, mapTotal, account, WithRules(row, exporting, RulesOf(row, exporting) + [e]));
  }

  lemma FewerRules(accounts: seq<Account>, rules: seq<Rule>, limit: nat, byTarget: bool, key: string)
    requires RulesOk(accounts, rules, limit)
    ensures RulesOk(accounts, Keep(rules, byTarget, key), limit)
  {
    hide AclOk, Keep;
    KeepIs(rules, byTarget, key);
    var k := Keep(rules, byTarget, key);
    forall i | 0 <= i < |k| ensures AclOk(k[i].subject) && NameOk(k[i].target) && PeerOk(accounts, k[i].target) {
      assert k[i] in k;
      var j :| 0 <= j < |rules| && rules[j] == k[i];
    }
  }

  lemma {:induction false} KeepCount(rules: seq<Rule>, byTarget: bool, key: string)
    ensures |Keep(rules, byTarget, key)| < |rules| <==> exists e :: e in rules && Hits(e, byTarget, key)
    ensures |Keep(rules, byTarget, key)| <= |rules|
  {
    if rules != [] {
      KeepCount(rules[1..], byTarget, key);
      assert rules == [rules[0]] + rules[1..];
      assert rules[0] in rules;
    }
  }

  lemma RemovedRule(accounts: seq<Account>, perms: seq<Perms>, mapTotal: nat, i: nat, exporting: bool, subject: string)
    requires Inv(accounts, perms, mapTotal) && i < |perms|
    ensures var r := WithRules(perms[i], exporting, Keep(RulesOf(perms[i], exporting), false, subject));
            Inv(accounts, PutOrDrop(perms, i, r), mapTotal)
  {
    hide AclOk, Active, RowOf, RulesOk, MapsOk, Keep, MapTotal;
    var r := WithRules(perms[i], exporting, Keep(RulesOf(perms[i], exporting), false, subject));
    assert RowOk(accounts, perms[i]);
    FewerRules(accounts, RulesOf(perms[i], exporting), MAX_EXPORTS, false, subject);
    if Empty(r) {
      RemoveKeeps(accounts, perms, mapTotal, i);
    } else {
      UpdateKeeps(accounts, perms, mapTotal, i, r);
    }
  }

  predicate Known(accounts: seq<Account>, name: string) {
    exists i :: 0 <= i < |accounts| && accounts[i].name == name
  }

  predicate HasRoom(accounts: seq<Account>) {
    |accounts| < ACCOUNT_MAX || exists i :: 0 <= i < |accounts| && !accounts[i].active
  }

  lemma OneSlot(accounts: seq<Account>, i: nat)
    requires AccountsOk(accounts) && i < |accounts|
    ensures Active(accounts, accounts[i].name) <==> accounts[i].active
  {
    if accounts[i].active { assert accounts[i] == Account(accounts[i].name, true); }
    if k :| 0 <= k < |accounts| && accounts[k] == Account(accounts[i].name, true) { assert k == i; }
  }

  lemma MapsBounded(perms: seq<Perms>, mapTotal: nat)
    requires mapTotal == MapTotal(perms)
    ensures forall i :: 0 <= i < |perms| ==> |perms[i].maps| <= mapTotal
  {
    forall i | 0 <= i < |perms| ensures |perms[i].maps| <= mapTotal { MapTotalUpdate(perms, i, perms[i]); }
  }

  lemma Glue(a: seq<Perms>, x: seq<Perms>, b: seq<Perms>)
    ensures a + (x + b) == (a + x) + b
  {
  }

  lemma Splice(done: seq<Perms>, before: seq<Perms>, k: nat, x: seq<Perms>)
    requires k < |before|
    ensures var p, i := done + before[k..], |done|;
            p[i] == before[k] && p[..i] + x + p[i + 1..] == (done + x) + before[k + 1..]
    ensures done + before[k..] == (done + [before[k]]) + before[k + 1..]
  {
  }

  lemma ScrubEnd(rows: seq<Perms>, peer: string)
    requires rows == []
    ensures Scrub(rows, peer) == []
  {
  }

  lemma ScrubAt(rows: seq<Perms>, i: nat, peer: string)
    requires i < |rows|
    ensures Scrub(rows[i..], peer) ==
            (if rows[i].account == peer then [rows[i]]
             else if Empty(ScrubRow(rows[i], peer)) then [] else [ScrubRow(rows[i], peer)]) + Scrub(rows[i + 1..], peer)
  {
    assert rows[i..][1..] == rows[i + 1..];
  }

  /** A deleted account has no row and nobody names it, so reclaiming its slot clears nothing. */
  lemma NothingOf(accounts: seq<Account>, perms: seq<Perms>, mapTotal: nat, name: string)
    requires Inv(accounts, perms, mapTotal) && !Active(accounts, name)
    ensures Others(perms, name) == perms && RowOf(perms, name) == |perms|
    ensures name != "*" ==> Scrub(perms, name) == perms
  {
    forall k | 0 <= k < |perms| ensures perms[k].account != name { RowActive(accounts, perms[k]); }
    ScrubNothing(accounts, perms, name);
  }

  lemma {:induction false} ScrubNothing(accounts: seq<Account>, rows: seq<Perms>, name: string)
    requires !Active(accounts, name) && forall i :: 0 <= i < |rows| ==> RowOk(accounts, rows[i])
    ensures name != "*" ==> Scrub(rows, name) == rows
  {
    hide RowOk, Keep, Active, ScrubRow, Empty;
    if rows != [] && name != "*" {
      var r := rows[0];
      ScrubNothing(accounts, rows[1..], name);
      RowAlone(accounts, r, name);
      assert rows == [r] + rows[1..];
    }
  }

  lemma RowAlone(accounts: seq<Account>, r: Perms, name: string)
    requires !Active(accounts, name) && RowOk(accounts, r) && name != "*"
    ensures ScrubRow(r, name) == r && !Empty(r) && r.account != name
  {
    hide Keep, AclOk, MapsOk;
    KeepAll(accounts, r.exports, MAX_EXPORTS, name);
    KeepAll(accounts, r.imports, MAX_IMPORTS, name);
  }

  lemma {:induction false} KeepAll(accounts: seq<Account>, rules: seq<Rule>, limit: nat, name: string)
    requires !Active(accounts, name) && name != "*" && forall i :: 0 <= i < |rules| ==>
             PeerOk(accounts, rules[i].target)
    ensures Keep(rules, true, name) == rules
  {
    if rules != [] {
      KeepAll(accounts, rules[1..], limit, name);
      assert rules == [rules[0]] + rules[1..];
      assert PeerOk(accounts, rules[0].target);
    }
  }

  /** Deactivating one account. */
  lemma Deactivated(before: seq<Account>, i: nat)
    requires AccountsOk(before) && i < |before| && before[i].active
    ensures var after := before[i := before[i].(active := false)];
            AccountsOk(after) && Gone(before, after, before[i].name)
  {
    var after, name := before[i := before[i].(active := false)], before[i].name;
    forall n | n != name && Active(before, n) ensures Active(after, n) {
      var k :| 0 <= k < |before| && before[k] == Account(n, true);
      assert after[k] == before[k];
    }
    assert Account(name, true) !in after;
  }

  /** The rows after an account is deleted: its own gone, and no mention of it left. */
  function AfterDelete(perms: seq<Perms>, name: string): seq<Perms> {
    if name == "*" then Others(perms, name) else Scrub(Others(perms, name), name)
  }

  function Others(perms: seq<Perms>, name: string): seq<Perms> {
    if RowOf(perms, name) < |perms| then perms[..RowOf(perms, name)] + perms[RowOf(perms, name) + 1..] else perms
  }

  /** The row of an account; |perms| for none. */
  function RowOf(perms: seq<Perms>, name: string): (i: nat)
    ensures i <= |perms| && (i < |perms| ==> perms[i].account == name)
    ensures forall j :: 0 <= j < i ==> perms[j].account != name
  {
    if perms == [] then 0
    else
      var k := RowOf(perms[..|perms| - 1], name);
      if k < |perms| - 1 || perms[|perms| - 1].account == name then k else |perms|
  }

  lemma OthersKeep(a: seq<Account>, perms: seq<Perms>, mapTotal: nat, name: string)
    requires Inv(a, perms, mapTotal)
    ensures var i := RowOf(perms, name); var lost := if i < |perms| then |perms[i].maps| else 0;
            lost <= mapTotal && Inv(a, Others(perms, name), mapTotal - lost)
    ensures forall r :: r in Others(perms, name) ==> r.account != name
  {
    var i := RowOf(perms, name);
    assert Rows(perms);
    if i < |perms| { RemoveKeeps(a, perms, mapTotal, i); }
  }

  lemma DeleteKeeps(a: seq<Account>, b: seq<Account>, perms: seq<Perms>, mapTotal: nat, name: string)
    requires Inv(a, perms, mapTotal) && AccountsOk(b) && Gone(a, b, name)
    ensures var i := RowOf(perms, name); var lost := if i < |perms| then |perms[i].maps| else 0;
            lost <= mapTotal && Inv(b, AfterDelete(perms, name), mapTotal - lost)
  {
    hide RowOk, Gone, MapTotal, RowOf, AccountsOk;
    OthersKeep(a, perms, mapTotal, name);
    var rows := Others(perms, name);
    hide Others;
    if name == "*" {
      forall i | 0 <= i < |rows| ensures RowOk(b, rows[i]) {
        assert rows[i] in rows;
        ScrubbedRow(a, b, name, rows[i]);
      }
    } else {
      ScrubKeeps(a, b, name, rows);
      assert forall i :: 0 <= i < |Scrub(rows, name)| ==> Scrub(rows, name)[i] in Scrub(rows, name);
    }
  }

  ghost predicate Mentions(r: Perms, name: string) {
    exists e :: (e in r.exports || e in r.imports) && e.target == name
  }

  /** No rule of the rows that are left names the deleted account. */
  lemma {:induction false} NoMention(rows: seq<Perms>, name: string)
    requires forall r :: r in rows ==> r.account != name
    ensures forall r :: r in Scrub(rows, name) ==> !Mentions(r, name)
  {
    hide Scrub, Keep, Empty, Mentions, ScrubRow;
    if rows == [] {
      ScrubEnd(rows, name);
    } else {
      NoMention(rows[1..], name);
      ScrubUnfold(rows, name);
      NotMentioned(rows[0], name);
    }
  }

  /** Of each other row exactly the rules that name it are gone; maps and the order of rows stay. */
  lemma {:induction false} OnlyMentions(rows: seq<Perms>, name: string, r: Perms)
    requires r in rows && r.account != name
    requires forall q :: q in rows ==> q.account != name
    ensures ScrubRow(r, name) in Scrub(rows, name) || Empty(ScrubRow(r, name))
    ensures var s := ScrubRow(r, name);
            && s.account == r.account && s.maps == r.maps
            && (forall e :: e in s.exports <==> e in r.exports && e.target != name)
            && (forall e :: e in s.imports <==> e in r.imports && e.target != name)
  {
    KeepIs(r.exports, true, name);
    KeepIs(r.imports, true, name);
    hide Scrub, Keep, Empty, ScrubRow;
    ScrubUnfold(rows, name);
    if r != rows[0] { OnlyMentions(rows[1..], name, r); }
    assert ScrubRow(r, name) == r.(exports := Keep(r.exports, true, name), imports := Keep(r.imports, true, name)) by {
      ScrubRowIs(r, name);
    }
  }

  lemma ScrubRowIs(r: Perms, name: string)
    ensures ScrubRow(r, name) == r.(exports := Keep(r.exports, true, name), imports := Keep(r.imports, true, name))
  {
  }

  lemma NotMentioned(r: Perms, name: string)
    ensures !Mentions(ScrubRow(r, name), name)
  {
    KeepIs(r.exports, true, name);
    KeepIs(r.imports, true, name);
  }

  lemma ScrubUnfold(rows: seq<Perms>, name: string)
    requires rows != [] && rows[0].account != name
    ensures Scrub(rows, name) == (if Empty(ScrubRow(rows[0], name)) then [] else [ScrubRow(rows[0], name)]) +
            Scrub(rows[1..], name)
  {
  }

  lemma Reactivated(before: seq<Account>, after: seq<Account>, i: nat, name: string)
    requires i <= |before| && (i < |before| ==> !before[i].active)
    requires after == if i < |before| then before[i := Account(name, true)] else before + [Account(name, true)]
    ensures Active(after, name)
    ensures forall n :: n != name ==> (Active(after, n) <==> Active(before, n))
    ensures forall n :: Active(before, n) ==> Active(after, n)
  {
    assert after[i] == Account(name, true);
    forall n | Active(before, n) ensures Active(after, n) {
      var k :| 0 <= k < |before| && before[k] == Account(n, true);
      assert after[k] == before[k];
    }
    forall n | n != name && Active(after, n) ensures Active(before, n) {
      var k :| 0 <= k < |after| && after[k] == Account(n, true);
      assert before[k] == after[k];
    }
  }
}
