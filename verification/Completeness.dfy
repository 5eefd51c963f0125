/**
 * Model of testing/workflow_eval/completeness_scorer.py and expansion_validator.py: which
 * required domains the files of a shortlist cover, and how the coverage of a shortlist
 * compares before and after files were added to it.
 */
module Completeness {
  import opened Common

  // ---------------------------------------------------------------------------
  // Roles
  // ---------------------------------------------------------------------------

  datatype Role = Role(kind: string, domain: string)

  /** A catalog entry by its resolved name; a column's role is None when it is not a string. */
  datatype Entry = Entry(blob: string, columnRoles: seq<Option<string>>)

  /** The role types a benchmark may ask for. */
  datatype RoleType = Entity | Transaction | Dimension

  datatype Requirement = Requirement(shortName: string, roleType: RoleType, hints: seq<string>, isRequired: bool)

  function IndexOfColon(s: string): (r: Option<nat>)
    ensures r.Some? ==> r.value < |s| && s[r.value] == ':'
  {
    if s == [] then None
    else if s[0] == ':' then Some(0)
    else
      match IndexOfColon(s[1..])
      case None => None
      case Some(i) => Some(i + 1)
  }

  /** 'prefix:role_kind:domain_label', split at the first two colons. */
  function ParseRole(s: string): Option<Role> {
    match IndexOfColon(s)
    case None => None
    case Some(i) =>
      var rest := s[i + 1..];
      match IndexOfColon(rest)
      case None => None
      case Some(j) => Some(Role(rest[..j], rest[j + 1..]))
  }

  /** The type a role kind counts as; a kind not listed counts as none. */
  function TypeOf(kind: string): Option<RoleType> {
    if kind == "entity_key" then Some(Entity)
    else if kind in {"reference_key", "additive_measure", "non_additive_measure"} then Some(Transaction)
    else if kind in {"date", "attribute"} then Some(Dimension)
    else None
  }

  /** Six kinds count as a type; any other kind counts as none. */
  lemma TypeTable(kind: string)
    ensures TypeOf(kind) == Some(Entity) <==> kind == "entity_key"
    ensures TypeOf(kind) == Some(Transaction)
       <==> kind == "reference_key" || kind == "additive_measure" || kind == "non_additive_measure"
    ensures TypeOf(kind) == Some(Dimension) <==> kind == "date" || kind == "attribute"
  {
  }

  function Parsed(roles: seq<Option<string>>): seq<Role> {
    if roles == [] then []
    else
      var before, last := Parsed(roles[..|roles| - 1]), roles[|roles| - 1];
      if last.Some? && ParseRole(last.value).Some? then before + [ParseRole(last.value).value] else before
  }

  function Lower(s: string): string {
    seq(|s|, i requires 0 <= i < |s| => if 'A' <= s[i] <= 'Z' then s[i] - 'A' + 'a' else s[i])
  }

  predicate OccursAt(hint: string, text: string, i: nat) {
    i + |hint| <= |text| && text[i..i + |hint|] == hint
  }

  /** The hint occurs in the text, as Python's `in` on strings. */
  predicate Within(hint: string, text: string) {
    exists i: nat :: i <= |text| && OccursAt(hint, text, i)
  }

  lemma WithinTransitive(a: string, b: string, c: string)
    requires Within(a, b) && Within(b, c)
    ensures Within(a, c)
  {
    var i: nat :| i <= |b| && OccursAt(a, b, i);
    var j: nat :| j <= |c| && OccursAt(b, c, j);
    forall k | 0 <= k < |a| ensures c[j + i + k] == a[k] {
      assert a[k] == b[i..i + |a|][k] && b[i + k] == c[j..j + |b|][i + k];
    }
    assert OccursAt(a, c, j + i);
  }

  lemma WithinItself(a: string)
    ensures Within(a, a)
  {
    assert OccursAt(a, a, 0);
  }

  /** The role has the required type and its label mentions one of the hints. */
  predicate RoleMatches(req: Requirement, role: Role) {
    && TypeOf(role.kind) == Some(req.roleType)
    && exists h :: h in req.hints && Within(Lower(h), Lower(role.domain))
  }

  /** The same letter, in either case. */
  predicate SameLetter(a: char, b: char) {
    || a == b
    || ('a' <= a <= 'z' && b as int == a as int - 32)
    || ('A' <= a <= 'Z' && b as int == a as int + 32)
  }

  lemma LowerIs(a: char, b: char)
    ensures Lower([a]) == Lower([b]) <==> SameLetter(a, b)
  {
    assert Lower([a])[0] == Lower([b])[0] <==> SameLetter(a, b);
  }

  /** The hint stands in the label from position i on, up to the case of its letters. */
  predicate MentionedAt(hint: string, text: string, i: nat) {
    i + |hint| <= |text| && forall k :: 0 <= k < |hint| ==> SameLetter(hint[k], text[i + k])
  }

  lemma MentionedIff(hint: string, text: string, i: nat)
    ensures OccursAt(Lower(hint), Lower(text), i) <==> MentionedAt(hint, text, i)
  {
    if i + |hint| <= |text| {
      var part := Lower(text)[i..i + |hint|];
      forall k | 0 <= k < |hint| ensures Lower(hint)[k] == part[k] <==> SameLetter(hint[k], text[i + k]) {
        LowerIs(hint[k], text[i + k]);
        assert Lower(hint)[k] == Lower([hint[k]])[0] && part[k] == Lower([text[i + k]])[0];
        assert Lower([hint[k]]) == Lower([text[i + k]]) <==> Lower([hint[k]])[0] == Lower([text[i + k]])[0];
      }
      if MentionedAt(hint, text, i) {
        assert Lower(hint) == part;
      }
      if OccursAt(Lower(hint), Lower(text), i) {
        forall k | 0 <= k < |hint| ensures SameLetter(hint[k], text[i + k]) {
          assert Lower(hint)[k] == part[k];
        }
      }
    }
  }

  /**
   * A role matches exactly when its kind counts as the type asked for and its label mentions a hint, in any case
   * of letters.
   */
  lemma RoleMatchesIff(req: Requirement, role: Role)
    ensures RoleMatches(req, role)
       <==> && TypeOf(role.kind) == Some(req.roleType)
            && exists h, i: nat :: h in req.hints && i <= |role.domain| && MentionedAt(h, role.domain, i)
  {
    forall h, i: nat ensures OccursAt(Lower(h), Lower(role.domain), i) <==> MentionedAt(h, role.domain, i) {
      MentionedIff(h, role.domain, i);
    }
    if h, i: nat :| h in req.hints && i <= |role.domain| && MentionedAt(h, role.domain, i) {
      assert OccursAt(Lower(h), Lower(role.domain), i);
      assert Within(Lower(h), Lower(role.domain));
    }
    if h :| h in req.hints && Within(Lower(h), Lower(role.domain)) {
      var i: nat :| i <= |Lower(role.domain)| && OccursAt(Lower(h), Lower(role.domain), i);
      assert MentionedAt(h, role.domain, i);
    }
  }

  predicate FileSatisfies(req: Requirement, roles: seq<Role>) {
    exists k :: 0 <= k < |roles| && RoleMatches(req, roles[k])
  }

  // ---------------------------------------------------------------------------
  // The role index and the score
  // ---------------------------------------------------------------------------

  type RoleIndex = map<string, seq<Role>>

  /** Each file with its parsed roles; a later entry with roles replaces an earlier one of the same name. */
  function IndexOf(shortlist: seq<Entry>): RoleIndex {
    if shortlist == [] then map[]
    else
      var before, last := IndexOf(shortlist[..|shortlist| - 1]), shortlist[|shortlist| - 1];
      if Parsed(last.columnRoles) != [] then before[last.blob := Parsed(last.columnRoles)] else before
  }

  predicate Satisfied(req: Requirement, index: RoleIndex) {
    exists blob :: blob in index && FileSatisfies(req, index[blob])
  }

  function CountSatisfied(expected: seq<Requirement>, index: RoleIndex): (n: nat)
    ensures n <= |expected|
  {
    if expected == [] then 0
    else
      var rest := CountSatisfied(expected[..|expected| - 1], index);
      if Satisfied(expected[|expected| - 1], index) then rest + 1 else rest
  }

  /** workflow_completeness: the fraction of expected domains covered. */
  function Score(expected: seq<Requirement>, shortlist: seq<Entry>): real {
    if expected == [] then 0.0 else CountSatisfied(expected, IndexOf(shortlist)) as real / |expected| as real
  }

  // ---- The index and the score, spelled out ---------------------------------

  /** The roles of a file are those of its columns that parse. */
  lemma {:induction false} ParsedAre(roles: seq<Option<string>>, r: Role)
    ensures r in Parsed(roles)
       <==> exists k :: 0 <= k < |roles| && roles[k].Some? && ParseRole(roles[k].value) == Some(r)
  {
    if roles != [] {
      var init, last := roles[..|roles| - 1], roles[|roles| - 1];
      ParsedAre(init, r);
      assert forall k :: 0 <= k < |init| ==> roles[k] == init[k];
      assert roles[|roles| - 1] == last;
    }
  }

  /** Texts with fewer than two colons are no roles. */
  lemma FewColons(before: string, after: string)
    requires ':' !in before && ':' !in after
    ensures ParseRole(before) == None && ParseRole(before + ":" + after) == None
  {
    NoColon(before);
    NoColon(after);
    ColonAt(before, after);
    assert (before + ":" + after)[|before| + 1..] == after;
  }

  lemma {:induction false} NoColon(text: string)
    requires ':' !in text
    ensures IndexOfColon(text) == None
  {
    if text != [] {
      NoColon(text[1..]);
    }
  }

  /** Entry j has the name, and roles. */
  predicate HasRoles(shortlist: seq<Entry>, blob: string, j: nat) {
    j < |shortlist| && shortlist[j].blob == blob && Parsed(shortlist[j].columnRoles) != []
  }

  /** The index has each name that has roles, with the roles of its last entry that has any ... */
  lemma {:induction false} IndexHas(shortlist: seq<Entry>, blob: string, j: nat)
    requires HasRoles(shortlist, blob, j) && forall k :: j < k < |shortlist| ==> !HasRoles(shortlist, blob, k)
    ensures blob in IndexOf(shortlist) && IndexOf(shortlist)[blob] == Parsed(shortlist[j].columnRoles)
  {
    var init, n := shortlist[..|shortlist| - 1], |shortlist| - 1;
    if j < n {
      assert forall k :: 0 <= k < n ==> (HasRoles(init, blob, k) <==> HasRoles(shortlist, blob, k));
      IndexHas(init, blob, j);
      assert !HasRoles(shortlist, blob, n);
    }
  }

  /** ... and no other name. */
  lemma {:induction false} IndexHasOnly(shortlist: seq<Entry>, blob: string)
    requires forall j :: 0 <= j < |shortlist| ==> !HasRoles(shortlist, blob, j)
    ensures blob !in IndexOf(shortlist)
  {
    if shortlist != [] {
      var init, n := shortlist[..|shortlist| - 1], |shortlist| - 1;
      forall j | 0 <= j < n ensures !HasRoles(init, blob, j) {
        assert !HasRoles(shortlist, blob, j);
      }
      IndexHasOnly(init, blob);
      assert !HasRoles(shortlist, blob, n);
    }
  }

  ghost function TruePositions(flags: seq<bool>): set<nat> {
    set k: nat | k < |flags| && flags[k]
  }

  lemma TruePositionsNext(flags: seq<bool>, last: bool)
    ensures |TruePositions(flags + [last])| == |TruePositions(flags)| + if last then 1 else 0
  {
    assert TruePositions(flags + [last]) == TruePositions(flags) + if last then {|flags|} else {};
  }

  /** For each requirement, whether it is satisfied. */
  function Flags(expected: seq<Requirement>, index: RoleIndex): seq<bool> {
    seq(|expected|, k requires 0 <= k < |expected| => Satisfied(expected[k], index))
  }

  lemma {:induction false} CountIs(expected: seq<Requirement>, index: RoleIndex)
    ensures CountSatisfied(expected, index) == |TruePositions(Flags(expected, index))|
  {
    if expected == [] {
      assert TruePositions(Flags(expected, index)) == {};
    } else {
      var init, last := expected[..|expected| - 1], expected[|expected| - 1];
      CountIs(init, index);
      TruePositionsNext(Flags(init, index), Satisfied(last, index));
      assert Flags(expected, index) == Flags(init, index) + [Satisfied(last, index)];
    }
  }

  /** The score is the number of satisfied requirements over the number expected, and 0 when none is expected. */
  lemma ScoreIs(expected: seq<Requirement>, shortlist: seq<Entry>, satisfied: real, all: real)
    requires satisfied == |TruePositions(Flags(expected, IndexOf(shortlist)))| as real && all == |expected| as real
    ensures expected == [] ==> Score(expected, shortlist) == 0.0
    ensures expected != [] ==> Score(expected, shortlist) == satisfied / all
  {
    CountIs(expected, IndexOf(shortlist));
  }

  // ---------------------------------------------------------------------------
  // When adding files loses no coverage
  // ---------------------------------------------------------------------------

  ghost predicate HasRole(index: RoleIndex, role: Role) {
    exists blob :: blob in index && role in index[blob]
  }

  /** Some role has the type of r and a label that contains the label of r. */
  ghost predicate Covers(index: RoleIndex, r: Role) {
    exists r' :: HasRole(index, r') && TypeOf(r'.kind) == TypeOf(r.kind) && Within(Lower(r.domain), Lower(r'.domain))
  }

  /** Each role before that counts as some type is covered after. */
  ghost predicate RolesCovered(before: RoleIndex, after: RoleIndex) {
    forall r :: HasRole(before, r) && TypeOf(r.kind).Some? ==> Covers(after, r)
  }

  ghost predicate NeverLoses(before: RoleIndex, after: RoleIndex) {
    forall req :: Satisfied(req, before) ==> Satisfied(req, after)
  }

  lemma SatisfiedByRole(req: Requirement, index: RoleIndex)
    ensures Satisfied(req, index) <==> exists r :: HasRole(index, r) && RoleMatches(req, r)
  {
  }

  /** No requirement whatever can lose its coverage exactly when every role is covered afterwards. */
  lemma NeverLosesIffCovered(before: RoleIndex, after: RoleIndex)
    ensures NeverLoses(before, after) <==> RolesCovered(before, after)
  {
    if RolesCovered(before, after) {
      forall req | Satisfied(req, before) ensures Satisfied(req, after) {
        SatisfiedByRole(req, before);
        var r :| HasRole(before, r) && RoleMatches(req, r);
        var h :| h in req.hints && Within(Lower(h), Lower(r.domain));
        assert Covers(after, r);
        var r' :| HasRole(after, r') && TypeOf(r'.kind) == TypeOf(r.kind) && Within(Lower(r.domain), Lower(r'.domain));
        WithinTransitive(Lower(h), Lower(r.domain), Lower(r'.domain));
        assert RoleMatches(req, r');
        SatisfiedByRole(req, after);
      }
    }
    if NeverLoses(before, after) {
      forall r | HasRole(before, r) && TypeOf(r.kind).Some? ensures Covers(after, r) {
        var probe := Requirement("probe", TypeOf(r.kind).value, [r.domain], true);
        WithinItself(Lower(r.domain));
        assert r.domain in probe.hints && RoleMatches(probe, r);
        SatisfiedByRole(probe, before);
        SatisfiedByRole(probe, after);
        var r' :| HasRole(after, r') && RoleMatches(probe, r');
      }
    }
  }

  ghost predicate DistinctBlobs(shortlist: seq<Entry>) {
    forall i, j :: 0 <= i < j < |shortlist| ==> shortlist[i].blob != shortlist[j].blob
  }

  ghost predicate Contains(bigger: seq<Entry>, smaller: seq<Entry>) {
    forall e :: e in smaller ==> e in bigger
  }

  /** Each indexed file carries the roles of one of the entries. */
  lemma {:induction false} IndexedEntry(shortlist: seq<Entry>, blob: string) returns (e: Entry)
    requires blob in IndexOf(shortlist)
    ensures e in shortlist && e.blob == blob && IndexOf(shortlist)[blob] == Parsed(e.columnRoles)
  {
    var init, last := shortlist[..|shortlist| - 1], shortlist[|shortlist| - 1];
    if Parsed(last.columnRoles) != [] && last.blob == blob {
      e := last;
    } else {
      e := IndexedEntry(init, blob);
    }
  }

  /** With distinct names, every entry that has roles is indexed with them. */
  lemma {:induction false} DistinctEntriesIndexed(shortlist: seq<Entry>, e: Entry)
    requires DistinctBlobs(shortlist) && e in shortlist && Parsed(e.columnRoles) != []
    ensures e.blob in IndexOf(shortlist) && IndexOf(shortlist)[e.blob] == Parsed(e.columnRoles)
  {
    var init, last := shortlist[..|shortlist| - 1], shortlist[|shortlist| - 1];
    if e != last {
      var i :| 0 <= i < |shortlist| && shortlist[i] == e;
      assert init[i] == e;
      DistinctEntriesIndexed(init, e);
    }
  }

  lemma {:induction false} IndexedNonempty(shortlist: seq<Entry>, blob: string)
    requires blob in IndexOf(shortlist)
    ensures IndexOf(shortlist)[blob] != []
  {
    var init, last := shortlist[..|shortlist| - 1], shortlist[|shortlist| - 1];
    if !(Parsed(last.columnRoles) != [] && last.blob == blob) {
      IndexedNonempty(init, blob);
    }
  }

  /** Adding files under new names keeps every satisfied requirement satisfied. */
  lemma AddingFilesKeepsCoverage(pre: seq<Entry>, post: seq<Entry>)
    requires Contains(post, pre) && DistinctBlobs(post)
    ensures NeverLoses(IndexOf(pre), IndexOf(post))
  {
    forall req | Satisfied(req, IndexOf(pre)) ensures Satisfied(req, IndexOf(post)) {
      var blob :| blob in IndexOf(pre) && FileSatisfies(req, IndexOf(pre)[blob]);
      var e := IndexedEntry(pre, blob);
      IndexedNonempty(pre, blob);
      DistinctEntriesIndexed(post, e);
      assert IndexOf(post)[blob] == IndexOf(pre)[blob];
    }
  }

  lemma {:induction false} CountMonotone(expected: seq<Requirement>, before: RoleIndex, after: RoleIndex)
    requires NeverLoses(before, after)
    ensures CountSatisfied(expected, before) <= CountSatisfied(expected, after)
  {
    if expected != [] {
      CountMonotone(expected[..|expected| - 1], before, after);
    }
  }

  lemma {:induction false} GainedRequirement(expected: seq<Requirement>, before: RoleIndex, after: RoleIndex)
    returns (req: Requirement)
    requires CountSatisfied(expected, before) < CountSatisfied(expected, after)
    ensures req in expected && Satisfied(req, after) && !Satisfied(req, before)
  {
    var last := expected[|expected| - 1];
    if Satisfied(last, after) && !Satisfied(last, before) {
      req := last;
    } else {
      req := GainedRequirement(expected[..|expected| - 1], before, after);
    }
  }

  lemma ScoreOrder(expected: seq<Requirement>, a: seq<Entry>, b: seq<Entry>)
    ensures Score(expected, a) < Score(expected, b)
       <==> CountSatisfied(expected, IndexOf(a)) < CountSatisfied(expected, IndexOf(b))
  {
    if expected != [] {
      var n, x, y := |expected| as real, CountSatisfied(expected, IndexOf(a)), CountSatisfied(expected, IndexOf(b));
      Quotients(x as real, y as real, n);
    }
  }

  lemma Quotients(x: real, y: real, n: real)
    requires n > 0.0
    ensures x / n < y / n <==> x < y
  {
  }

  // ---------------------------------------------------------------------------
  // The expansion report
  // ---------------------------------------------------------------------------

  datatype Verdict = Effective | Partial | Neutral | Harmful

  /**
   * `contributed` gives each added file the short names of the requirements its catalog entry satisfies;
   * `recovered` are the short names satisfied after the expansion and not before.
   */
  datatype Report = Report(
    triggered: bool,
    before: real,
    after: real,
    requiredBefore: nat,
    requiredAfter: nat,
    recovered: set<string>,
    contributed: map<string, set<string>>,
    falseExpansions: set<string>,
    falseRate: real,
    verdict: Verdict
  ) {
    function Delta(): real {
      after - before
    }

    function Added(): set<string> {
      contributed.Keys
    }

    function Useful(): set<string> {
      Added() - falseExpansions
    }
  }

  function Blobs(shortlist: seq<Entry>): set<string> {
    set e | e in shortlist :: e.blob
  }

  /** {name: entry for entry in catalog}: the last entry of a name wins; an unknown name has no roles. */
  function CatalogRoles(catalog: seq<Entry>, blob: string): seq<Role> {
    if catalog == [] then []
    else if catalog[|catalog| - 1].blob == blob then Parsed(catalog[|catalog| - 1].columnRoles)
    else CatalogRoles(catalog[..|catalog| - 1], blob)
  }

  /** Short names of the requirements that some role of a file satisfies. */
  function Contributed(expected: seq<Requirement>, roles: seq<Role>): set<string> {
    set k | 0 <= k < |expected| && FileSatisfies(expected[k], roles) :: expected[k].shortName
  }

  function ContributedBy(expected: seq<Requirement>, catalog: seq<Entry>, added: set<string>)
    : map<string, set<string>>
  {
    map b | b in added :: Contributed(expected, CatalogRoles(catalog, b))
  }

  /** Added files that satisfy no requirement. */
  function Idle(expected: seq<Requirement>, catalog: seq<Entry>, added: set<string>): set<string> {
    set b | b in added && Contributed(expected, CatalogRoles(catalog, b)) == {}
  }

  /** Short names of the requirements a shortlist satisfies. */
  function SatisfiedNames(expected: seq<Requirement>, index: RoleIndex): set<string> {
    set k | 0 <= k < |expected| && Satisfied(expected[k], index) :: expected[k].shortName
  }

  function RequiredOf(expected: seq<Requirement>): seq<Requirement> {
    Filter(expected, (r: Requirement) => r.isRequired)
  }

  function VerdictOf(triggered: bool, delta: real): Verdict {
    if !triggered then Neutral
    else if delta > 0.10 then Effective
    else if delta > 0.0 then Partial
    else if delta < 0.0 then Harmful
    else Neutral
  }

  /** An absent or empty pre-expansion shortlist counts as the final one. */
  function Before(preExpansion: seq<Entry>, shortlist: seq<Entry>): seq<Entry> {
    if preExpansion == [] then shortlist else preExpansion
  }

  function Evaluate(expected: seq<Requirement>, preExpansion: seq<Entry>, shortlist: seq<Entry>, catalog: seq<Entry>)
    : Report
  {
    var pre := Before(preExpansion, shortlist);
    var added := Blobs(shortlist) - Blobs(pre);
    var idle := Idle(expected, catalog, added);
    var (before, after) := (Score(expected, pre), Score(expected, shortlist));
    Report(added != {}, before, after,
           CountSatisfied(RequiredOf(expected), IndexOf(pre)), CountSatisfied(RequiredOf(expected), IndexOf(shortlist)),
           SatisfiedNames(expected, IndexOf(shortlist)) - SatisfiedNames(expected, IndexOf(pre)),
           ContributedBy(expected, catalog, added), idle, if added == {} then 0.0 else |idle| as real / |added| as real,
           VerdictOf(added != {}, after - before))
  }

  lemma VerdictIs(triggered: bool, delta: real)
    ensures VerdictOf(triggered, delta) == Effective <==> triggered && delta > 0.10
    ensures VerdictOf(triggered, delta) == Partial <==> triggered && 0.0 < delta <= 0.10
    ensures VerdictOf(triggered, delta) == Harmful <==> triggered && delta < 0.0
  {
  }

  /** A file has the catalog roles of the last catalog entry of its name, and none if there is no such entry. */
  lemma {:induction false} CatalogIs(catalog: seq<Entry>, blob: string, j: nat)
    requires forall k :: j < k < |catalog| ==> catalog[k].blob != blob
    ensures j < |catalog| && catalog[j].blob == blob ==> CatalogRoles(catalog, blob) == Parsed(catalog[j].columnRoles)
    ensures (forall k :: 0 <= k < |catalog| ==> catalog[k].blob != blob) ==> CatalogRoles(catalog, blob) == []
  {
    if catalog != [] {
      var init := catalog[..|catalog| - 1];
      CatalogIs(init, blob, j);
      assert forall k :: 0 <= k < |init| ==> catalog[k] == init[k];
    }
  }

  /** The shortlist compared with is the one before the expansion, or the final one if that is empty. */
  function Compared(preExpansion: seq<Entry>, shortlist: seq<Entry>): seq<Entry> {
    if preExpansion != [] then preExpansion else shortlist
  }

  predicate Named(shortlist: seq<Entry>, name: string) {
    exists e :: e in shortlist && e.blob == name
  }

  /** The report, item by item: what was compared, and what was added. */
  lemma ReportIs(expected: seq<Requirement>, preExpansion: seq<Entry>, shortlist: seq<Entry>, catalog: seq<Entry>,
                 name: string)
    ensures var r := Evaluate(expected, preExpansion, shortlist, catalog);
            var pre := Compared(preExpansion, shortlist);
            && r.before == Score(expected, pre) && r.after == Score(expected, shortlist)
            && (name in r.contributed <==> Named(shortlist, name) && !Named(pre, name))
            && (r.triggered <==> r.contributed != map[])
            && (name in r.falseExpansions <==> name in r.contributed && r.contributed[name] == {})
            && r.verdict == VerdictOf(r.triggered, r.after - r.before)
  {
    var r := Evaluate(expected, preExpansion, shortlist, catalog);
    assert r.contributed.Keys == Blobs(shortlist) - Blobs(Before(preExpansion, shortlist));
    assert r.contributed != map[] <==> r.contributed.Keys != {};
  }

  /** A requirement of the name is satisfied. */
  predicate NameSatisfied(expected: seq<Requirement>, index: RoleIndex, name: string) {
    exists k :: 0 <= k < |expected| && expected[k].shortName == name && Satisfied(expected[k], index)
  }

  /** Recovered are the short names satisfied after the expansion and not before. */
  lemma RecoveredIs(expected: seq<Requirement>, preExpansion: seq<Entry>, shortlist: seq<Entry>, catalog: seq<Entry>,
                    name: string)
    ensures name in Evaluate(expected, preExpansion, shortlist, catalog).recovered
       <==> && NameSatisfied(expected, IndexOf(shortlist), name)
            && !NameSatisfied(expected, IndexOf(Compared(preExpansion, shortlist)), name)
  {
    SatisfiedNamesAre(expected, IndexOf(shortlist), name);
    SatisfiedNamesAre(expected, IndexOf(Compared(preExpansion, shortlist)), name);
    assert Compared(preExpansion, shortlist) == Before(preExpansion, shortlist);
  }

  lemma SatisfiedNamesAre(expected: seq<Requirement>, index: RoleIndex, name: string)
    ensures name in SatisfiedNames(expected, index) <==> NameSatisfied(expected, index, name)
  {
  }

  /** Useful are the added files that contribute a domain; the others are the false expansions. */
  lemma UsefulIs(expected: seq<Requirement>, preExpansion: seq<Entry>, shortlist: seq<Entry>, catalog: seq<Entry>,
                 name: string)
    ensures var r := Evaluate(expected, preExpansion, shortlist, catalog);
            && (name in r.Useful() <==> name in r.contributed && r.contributed[name] != {})
            && r.Useful() !! r.falseExpansions && r.Added() == r.Useful() + r.falseExpansions
            && r.Delta() == r.after - r.before
  {
  }

  /** An added file contributes the short names of the requirements that some role of its catalog entry matches. */
  lemma ContributedIs(expected: seq<Requirement>, preExpansion: seq<Entry>, shortlist: seq<Entry>, catalog: seq<Entry>,
                      blob: string)
    requires blob in Evaluate(expected, preExpansion, shortlist, catalog).contributed
    ensures Evaluate(expected, preExpansion, shortlist, catalog).contributed[blob]
         == set k | 0 <= k < |expected| && FileSatisfies(expected[k], CatalogRoles(catalog, blob)) ::
              expected[k].shortName
  {
  }

  lemma FileSatisfiesIff(req: Requirement, roles: seq<Role>)
    ensures FileSatisfies(req, roles) <==> exists r :: r in roles && RoleMatches(req, r)
  {
  }

  lemma CountsReported(expected: seq<Requirement>, preExpansion: seq<Entry>, shortlist: seq<Entry>, catalog: seq<Entry>)
    ensures var r := Evaluate(expected, preExpansion, shortlist, catalog);
            var pre := Compared(preExpansion, shortlist);
            var required := Filter(expected, (q: Requirement) => q.isRequired);
            && r.requiredBefore == |TruePositions(Flags(required, IndexOf(pre)))|
            && r.requiredAfter == |TruePositions(Flags(required, IndexOf(shortlist)))|
            && r.falseRate == if r.contributed == map[] then 0.0
                              else |r.falseExpansions| as real / |r.contributed.Keys| as real
  {
    var r := Evaluate(expected, preExpansion, shortlist, catalog);
    CountIs(RequiredOf(expected), IndexOf(Before(preExpansion, shortlist)));
    CountIs(RequiredOf(expected), IndexOf(shortlist));
    assert r.contributed.Keys == Blobs(shortlist) - Blobs(Before(preExpansion, shortlist));
    assert r.contributed == map[] <==> r.contributed.Keys == {};
  }

  /** With distinct names and nothing removed, the delta is never negative and no expansion is called harmful. */
  lemma HarmfulIsUnreachable(expected: seq<Requirement>, preExpansion: seq<Entry>, shortlist: seq<Entry>,
                             catalog: seq<Entry>)
    requires DistinctBlobs(shortlist) && Contains(shortlist, preExpansion)
    ensures var r := Evaluate(expected, preExpansion, shortlist, catalog); r.Delta() >= 0.0 && r.verdict != Harmful
  {
    var pre := Before(preExpansion, shortlist);
    AddingFilesKeepsCoverage(pre, shortlist);
    CountMonotone(expected, IndexOf(pre), IndexOf(shortlist));
    ScoreOrder(expected, shortlist, pre);
  }

  /**
   * A gain comes from an added file: some file under a new name itself satisfies a requirement that was not met
   * before.
   */
  lemma GainComesFromAddedFile(expected: seq<Requirement>, pre: seq<Entry>, post: seq<Entry>)
    returns (req: Requirement, e: Entry)
    requires DistinctBlobs(post) && Contains(post, pre)
    requires Score(expected, pre) < Score(expected, post)
    ensures req in expected && Satisfied(req, IndexOf(post)) && !Satisfied(req, IndexOf(pre))
    ensures e in post && e.blob !in Blobs(pre) && FileSatisfies(req, Parsed(e.columnRoles))
  {
    ScoreOrder(expected, pre, post);
    req := GainedRequirement(expected, IndexOf(pre), IndexOf(post));
    var blob :| blob in IndexOf(post) && FileSatisfies(req, IndexOf(post)[blob]);
    e := IndexedEntry(post, blob);
    if blob in Blobs(pre) {
      var old_ :| old_ in pre && old_.blob == blob;
      var i :| 0 <= i < |post| && post[i] == e;
      var j :| 0 <= j < |post| && post[j] == old_;
      assert i == j;
      var k :| 0 <= k < |pre| && pre[k] == e;
      IndexedNonempty(post, blob);
      StillIndexed(pre, post, e);
      assert false;
    }
  }

  /** An entry of the earlier shortlist is indexed there with its own roles, as it is later. */
  lemma StillIndexed(pre: seq<Entry>, post: seq<Entry>, e: Entry)
    requires DistinctBlobs(post) && Contains(post, pre) && e in pre && Parsed(e.columnRoles) != []
    ensures e.blob in IndexOf(pre) && IndexOf(pre)[e.blob] == Parsed(e.columnRoles)
  {
    SameNameSameEntry(pre, post, e);
    IndexedIfUniform(pre, e);
  }

  lemma SameNameSameEntry(pre: seq<Entry>, post: seq<Entry>, e: Entry)
    requires DistinctBlobs(post) && Contains(post, pre) && e in pre
    ensures forall d :: d in pre && d.blob == e.blob ==> d == e
  {
  }

  lemma {:induction false} IndexedIfUniform(shortlist: seq<Entry>, e: Entry)
    requires e in shortlist && Parsed(e.columnRoles) != []
    requires forall d :: d in shortlist && d.blob == e.blob ==> d == e
    ensures e.blob in IndexOf(shortlist) && IndexOf(shortlist)[e.blob] == Parsed(e.columnRoles)
  {
    var init, last := shortlist[..|shortlist| - 1], shortlist[|shortlist| - 1];
    assert last in shortlist;
    if e != last {
      var i :| 0 <= i < |shortlist| && shortlist[i] == e;
      assert init[i] == e;
      IndexedIfUniform(init, e);
    }
  }

  lemma {:induction false} CatalogKnows(catalog: seq<Entry>, e: Entry)
    requires DistinctBlobs(catalog) && e in catalog
    ensures CatalogRoles(catalog, e.blob) == Parsed(e.columnRoles)
  {
    var init, last := catalog[..|catalog| - 1], catalog[|catalog| - 1];
    if e != last {
      var i :| 0 <= i < |catalog| && catalog[i] == e;
      assert init[i] == e;
      CatalogKnows(init, e);
    }
  }

  ghost predicate DistinctShortNames(expected: seq<Requirement>) {
    forall i, j :: 0 <= i < j < |expected| ==> expected[i].shortName != expected[j].shortName
  }

  /**
   * So, when the full catalog lists the shortlisted files, a positive delta means at least one added file
   * is useful; with distinct short names it contributes a recovered domain.
   */
  lemma GainMeansUsefulFile(expected: seq<Requirement>, preExpansion: seq<Entry>, shortlist: seq<Entry>,
                            catalog: seq<Entry>)
    returns (blob: string, domain: string)
    requires DistinctBlobs(shortlist) && Contains(shortlist, preExpansion)
    requires DistinctBlobs(catalog) && Contains(catalog, shortlist)
    requires Evaluate(expected, preExpansion, shortlist, catalog).Delta() > 0.0
    ensures var r := Evaluate(expected, preExpansion, shortlist, catalog);
            && r.triggered && blob in r.Useful() && domain in r.contributed[blob]
            && (DistinctShortNames(expected) ==> domain in r.recovered)
  {
    var pre := Before(preExpansion, shortlist);
    var req, e := GainComesFromAddedFile(expected, pre, shortlist);
    CatalogKnows(catalog, e);
    var k :| 0 <= k < |expected| && expected[k] == req;
    blob, domain := e.blob, req.shortName;
    assert domain in Contributed(expected, CatalogRoles(catalog, blob));
    ReportedUseful(expected, preExpansion, shortlist, catalog, blob, domain);
    if DistinctShortNames(expected) {
      NewName(expected, IndexOf(pre), IndexOf(shortlist), req);
    }
  }

  /** An added file that contributes a domain is reported with it, as useful. */
  lemma ReportedUseful(expected: seq<Requirement>, preExpansion: seq<Entry>, shortlist: seq<Entry>, catalog: seq<Entry>,
                       blob: string, domain: string)
    requires blob in Blobs(shortlist) - Blobs(Before(preExpansion, shortlist))
    requires domain in Contributed(expected, CatalogRoles(catalog, blob))
    ensures var r := Evaluate(expected, preExpansion, shortlist, catalog);
            r.triggered && blob in r.Useful() && domain in r.contributed[blob]
  {
  }

  /** With distinct short names, a newly met requirement is told by its name. */
  lemma NewName(expected: seq<Requirement>, before: RoleIndex, after: RoleIndex, req: Requirement)
    requires DistinctShortNames(expected) && req in expected && Satisfied(req, after) && !Satisfied(req, before)
    ensures req.shortName in SatisfiedNames(expected, after) && req.shortName !in SatisfiedNames(expected, before)
  {
    var k :| 0 <= k < |expected| && expected[k] == req;
    assert Satisfied(expected[k], after);
  }

  // ---------------------------------------------------------------------------
  // When an expansion can be called harmful
  // ---------------------------------------------------------------------------

  lemma SingleScore(req: Requirement, shortlist: seq<Entry>)
    ensures Score([req], shortlist) == if Satisfied(req, IndexOf(shortlist)) then 1.0 else 0.0
  {
    assert [req][..0] == [] && CountSatisfied([], IndexOf(shortlist)) == 0;
  }

  /** Some benchmark calls the expansion harmful. */
  ghost predicate CanBeHarmful(preExpansion: seq<Entry>, shortlist: seq<Entry>, catalog: seq<Entry>) {
    exists expected :: Evaluate(expected, preExpansion, shortlist, catalog).verdict == Harmful
  }

  /** A requirement met before and not after is a benchmark that calls the expansion harmful, if a file was added. */
  lemma LostRequirementIsHarmful(req: Requirement, preExpansion: seq<Entry>, shortlist: seq<Entry>, catalog: seq<Entry>)
    requires Blobs(shortlist) - Blobs(Before(preExpansion, shortlist)) != {}
    ensures Evaluate([req], preExpansion, shortlist, catalog).verdict == Harmful
       <==> Satisfied(req, IndexOf(Before(preExpansion, shortlist))) && !Satisfied(req, IndexOf(shortlist))
  {
    SingleScore(req, Before(preExpansion, shortlist));
    SingleScore(req, shortlist);
  }

  /**
   * The exact condition for the verdict that should not happen: some benchmark calls the expansion
   * harmful exactly when a file was added and some role of the earlier shortlist is no longer covered.
   */
  lemma CanBeHarmfulIff(preExpansion: seq<Entry>, shortlist: seq<Entry>, catalog: seq<Entry>)
    ensures CanBeHarmful(preExpansion, shortlist, catalog)
       <==> && Blobs(shortlist) - Blobs(Before(preExpansion, shortlist)) != {}
            && !RolesCovered(IndexOf(Before(preExpansion, shortlist)), IndexOf(shortlist))
  {
    var pre := Before(preExpansion, shortlist);
    var (before, after) := (IndexOf(pre), IndexOf(shortlist));
    NeverLosesIffCovered(before, after);
    forall expected | Evaluate(expected, preExpansion, shortlist, catalog).verdict == Harmful
      ensures !NeverLoses(before, after) {
      if NeverLoses(before, after) {
        CountMonotone(expected, before, after);
        ScoreOrder(expected, shortlist, pre);
        assert false;
      }
    }
    if Blobs(shortlist) - Blobs(pre) != {} && !NeverLoses(before, after) {
      var req :| Satisfied(req, before) && !Satisfied(req, after);
      LostRequirementIsHarmful(req, preExpansion, shortlist, catalog);
    }
  }

  /** Without distinct names "harmful" is reached: a second entry of the same name hides the roles of the first. */
  lemma DuplicateNameIsHarmful(req: Requirement, first: Entry, second: Entry, third: Entry)
    requires first.blob == second.blob && third.blob != first.blob
    requires FileSatisfies(req, Parsed(first.columnRoles))
    requires Parsed(second.columnRoles) != [] && !FileSatisfies(req, Parsed(second.columnRoles))
    requires !FileSatisfies(req, Parsed(third.columnRoles))
    ensures Evaluate([req], [first], [first, second, third], [first, second, third]).verdict == Harmful
  {
    var pre, post := [first], [first, second, third];
    IndexOfThree(first, second, third);
    assert FileSatisfies(req, IndexOf(pre)[first.blob]);
    assert !Satisfied(req, IndexOf(post));
    assert third in post && third.blob in Blobs(post) - Blobs(pre);
    LostRequirementIsHarmful(req, pre, post, post);
  }

  lemma IndexOfThree(first: Entry, second: Entry, third: Entry)
    requires first.blob == second.blob && third.blob != first.blob
    requires Parsed(first.columnRoles) != [] && Parsed(second.columnRoles) != []
    ensures IndexOf([first]) == map[first.blob := Parsed(first.columnRoles)]
    ensures var two := map[first.blob := Parsed(second.columnRoles)];
            IndexOf([first, second, third])
            == if Parsed(third.columnRoles) == [] then two else two[third.blob := Parsed(third.columnRoles)]
  {
    assert [first, second, third][..2] == [first, second] && [first, second][..1] == [first] && [first][..0] == [];
    assert IndexOf([]) == map[];
  }

  /** Such entries exist: the hidden role is a date called "d", the hiding one has an unknown kind. */
  lemma DuplicateNameExample() returns (req: Requirement, first: Entry, second: Entry, third: Entry)
    ensures first.blob == second.blob == "a" && third.blob == "b"
    ensures Evaluate([req], [first], [first, second, third], [first, second, third]).verdict == Harmful
  {
    req := Requirement("due", Dimension, ["d"], true);
    first, second := Entry("a", [Some("c" + ":" + "date" + ":" + "d")]), Entry("a", [Some("c" + ":" + "" + ":" + "d")]);
    third := Entry("b", []);
    RoleColumn("c", "date", "d");
    RoleColumn("c", "", "d");
    ExampleMatches(req);
    assert Parsed(third.columnRoles) == [];
    DuplicateNameIsHarmful(req, first, second, third);
  }

  lemma ExampleMatches(req: Requirement)
    requires req == Requirement("due", Dimension, ["d"], true)
    ensures FileSatisfies(req, [Role("date", "d")]) && !FileSatisfies(req, [Role("", "d")]) && !FileSatisfies(req, [])
  {
    WithinItself(Lower("d"));
    assert "d" in req.hints;
    assert RoleMatches(req, [Role("date", "d")][0]);
  }

  lemma {:induction false} ColonAt(before: string, after: string)
    requires ':' !in before
    ensures IndexOfColon(before + ":" + after) == Some(|before|)
  {
    var text := before + ":" + after;
    if before != [] {
      assert text[0] == before[0] && text[1..] == before[1..] + ":" + after;
      ColonAt(before[1..], after);
    }
  }

  /** A role text with two colons splits into its three parts. */
  lemma ParsedRole(prefix: string, kind: string, domain: string)
    requires ':' !in prefix && ':' !in kind
    ensures ParseRole(prefix + ":" + kind + ":" + domain) == Some(Role(kind, domain))
  {
    var text, rest := prefix + ":" + kind + ":" + domain, kind + ":" + domain;
    assert text == prefix + ":" + rest && text[|prefix| + 1..] == rest;
    ColonAt(prefix, rest);
    ColonAt(kind, domain);
    assert rest[..|kind|] == kind && rest[|kind| + 1..] == domain;
  }

  lemma SingleParsed(text: string, role: Role)
    requires ParseRole(text) == Some(role)
    ensures Parsed([Some(text)]) == [role]
  {
  }

  lemma RoleColumn(prefix: string, kind: string, domain: string)
    requires ':' !in prefix && ':' !in kind
    ensures Parsed([Some(prefix + ":" + kind + ":" + domain)]) == [Role(kind, domain)]
  {
    ParsedRole(prefix, kind, domain);
    SingleParsed(prefix + ":" + kind + ":" + domain, Role(kind, domain));
  }

  // ---------------------------------------------------------------------------
  // The loops
  // ---------------------------------------------------------------------------

  method CollectRoles(shortlist: seq<Entry>) returns (index: RoleIndex)
    ensures index == IndexOf(shortlist)
  {
    index := map[];
    for n := 0 to |shortlist|
      invariant index == IndexOf(shortlist[..n])
    {
      assert shortlist[..n + 1][..n] == shortlist[..n];
      var parsed: seq<Role>, roles := [], shortlist[n].columnRoles;
      for k := 0 to |roles|
        invariant parsed == Parsed(roles[..k])
      {
        assert roles[..k + 1][..k] == roles[..k];
        if roles[k].Some? {
          var role := ParseRole(roles[k].value);
          if role.Some? {
            parsed := parsed + [role.value];
          }
        }
      }
      assert roles[..|roles|] == roles;
      if parsed != [] {
        index := index[shortlist[n].blob := parsed];
      }
    }
    assert shortlist[..|shortlist|] == shortlist;
  }

  /** _score_requirement_against_shortlist, up to the evidence strings: the satisfying files. */
  method SatisfyingFiles(req: Requirement, index: RoleIndex) returns (files: set<string>)
    ensures files == set b | b in index && FileSatisfies(req, index[b])
    ensures files != {} <==> Satisfied(req, index)
  {
    files := {};
    var todo := index.Keys;
    while todo != {}
      invariant todo <= index.Keys
      invariant files == set b | b in index && b !in todo && FileSatisfies(req, index[b])
      decreases todo
    {
      var blob :| blob in todo;
      var ok := FileSatisfies(req, index[blob]);
      if ok {
        files := files + {blob};
      }
      todo := todo - {blob};
    }
    if Satisfied(req, index) {
      var b :| b in index && FileSatisfies(req, index[b]);
      assert b in files;
    }
  }

  /** domain_coverage: for each requirement, whether some file satisfies it. */
  method Coverage(expected: seq<Requirement>, index: RoleIndex) returns (covered: seq<bool>)
    ensures |covered| == |expected| && forall k :: 0 <= k < |expected| ==> covered[k] == Satisfied(expected[k], index)
  {
    covered := [];
    for n := 0 to |expected|
      invariant |covered| == n && forall k :: 0 <= k < n ==> covered[k] == Satisfied(expected[k], index)
    {
      var files := SatisfyingFiles(expected[n], index);
      covered := covered + [files != {}];
    }
  }

  method ScoreShortlist(expected: seq<Requirement>, shortlist: seq<Entry>)
    returns (score: real, required: nat, names: set<string>)
    ensures score == Score(expected, shortlist)
    ensures required == CountSatisfied(RequiredOf(expected), IndexOf(shortlist))
    ensures names == SatisfiedNames(expected, IndexOf(shortlist))
  {
    var index := CollectRoles(shortlist);
    var covered := Coverage(expected, index);
    var satisfied := 0;
    required := 0;
    for n := 0 to |expected|
      invariant satisfied == CountSatisfied(expected[..n], index)
      invariant required == CountSatisfied(RequiredOf(expected[..n]), index)
    {
      assert expected[..n + 1][..n] == expected[..n];
      RequiredNext(expected, n, index);
      if covered[n] {
        satisfied := satisfied + 1;
        required := required + if expected[n].isRequired then 1 else 0;
      }
    }
    assert expected[..|expected|] == expected;
    score := if |expected| > 0 then satisfied as real / |expected| as real else 0.0;
    names := set k | 0 <= k < |expected| && covered[k] :: expected[k].shortName;
  }

  lemma {:induction false} RequiredAppend(a: seq<Requirement>, r: Requirement)
    ensures RequiredOf(a + [r]) == RequiredOf(a) + if r.isRequired then [r] else []
  {
    if a == [] {
      assert a + [r] == [r] && [r][1..] == [];
    } else {
      assert (a + [r])[0] == a[0] && (a + [r])[1..] == a[1..] + [r];
      RequiredAppend(a[1..], r);
    }
  }

  lemma RequiredNext(expected: seq<Requirement>, n: nat, index: RoleIndex)
    requires n < |expected|
    ensures CountSatisfied(RequiredOf(expected[..n + 1]), index)
         == CountSatisfied(RequiredOf(expected[..n]), index)
            + if expected[n].isRequired && Satisfied(expected[n], index) then 1 else 0
  {
    var before := RequiredOf(expected[..n]);
    assert expected[..n + 1] == expected[..n] + [expected[n]];
    RequiredAppend(expected[..n], expected[n]);
    if expected[n].isRequired {
      assert (before + [expected[n]])[..|before|] == before;
    } else {
      assert RequiredOf(expected[..n + 1]) == before;
    }
  }

  /** _file_satisfies_any_domain, as a set of short names. */
  method FileDomains(expected: seq<Requirement>, roles: seq<Role>) returns (names: set<string>)
    ensures names == Contributed(expected, roles)
  {
    names := {};
    for n := 0 to |expected|
      invariant names == set k | 0 <= k < n && FileSatisfies(expected[k], roles) :: expected[k].shortName
    {
      if FileSatisfies(expected[n], roles) {
        names := names + {expected[n].shortName};
      }
    }
  }

  method EvaluateAdded(expected: seq<Requirement>, catalog: seq<Entry>, added: set<string>)
    returns (contributed: map<string, set<string>>, idle: set<string>)
    ensures contributed == ContributedBy(expected, catalog, added) && idle == Idle(expected, catalog, added)
  {
    contributed, idle := map[], {};
    var todo := added;
    while todo != {}
      invariant todo <= added
      invariant contributed == ContributedBy(expected, catalog, added - todo)
                && idle == Idle(expected, catalog, added - todo)
      decreases todo
    {
      var blob :| blob in todo;
      var names := FileDomains(expected, CatalogRoles(catalog, blob));
      contributed := contributed[blob := names];
      if names == {} {
        idle := idle + {blob};
      }
      assert added - (todo - {blob}) == (added - todo) + {blob};
      todo := todo - {blob};
    }
    assert added - todo == added;
  }

  method ValidateExpansion(expected: seq<Requirement>, preExpansion: seq<Entry>, shortlist: seq<Entry>,
                           catalog: seq<Entry>)
    returns (report: Report)
    ensures report == Evaluate(expected, preExpansion, shortlist, catalog)
  {
    var pre := Before(preExpansion, shortlist);
    var added := Blobs(shortlist) - Blobs(pre);
    var before, requiredBefore, namesBefore := ScoreShortlist(expected, pre);
    var after, requiredAfter, namesAfter := ScoreShortlist(expected, shortlist);
    var contributed, idle := EvaluateAdded(expected, catalog, added);
    var falseRate := if added == {} then 0.0 else |idle| as real / |added| as real;
    report := Report(added != {}, before, after, requiredBefore, requiredAfter, namesAfter - namesBefore,
                     contributed, idle, falseRate, VerdictOf(added != {}, after - before));
  }
}
