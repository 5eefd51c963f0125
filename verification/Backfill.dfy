/**
 * Model of server/app/migrations/backfill_embeddings.py: the paging loop in its two modes
 * (refetch the first rows still without an embedding, or walk all rows by offset) and the
 * pooled page, which sends a page through the batch planner and the scatter.
 */
module Backfill {
  import opened Common
  import EmbedBatcher

  type Vec = seq<real>

  /** `content` stands for the columns build_search_text reads. */
  datatype Row = Row(content: string, searchText: Option<string>, embedding: Option<Vec>)

  predicate IsZero(v: Vec) {
    forall i :: 0 <= i < |v| ==> v[i] == 0.0
  }

  /**
   * The services a run depends on: the search text of a row, and what one page of texts
   * gets back (which may depend on the page number), one entry per text, None on failure.
   */
  datatype Services = Services(text: string -> string, embed: (nat, seq<string>) -> seq<Option<Vec>>) {
    function TextOf(r: Row): string {
      text(r.content)
    }

    /** One result per text; a missing or zero vector counts as a failure. */
    function Results(page: nat, texts: seq<string>): (r: seq<Option<Vec>>)
      ensures |r| == |texts|
      ensures forall k :: 0 <= k < |r| && r[k].Some? ==> !IsZero(r[k].value)
    {
      var raw := embed(page, texts);
      seq(|texts|, k requires 0 <= k < |texts| =>
        if k < |raw| && raw[k].Some? && !IsZero(raw[k].value) then raw[k] else None)
    }

    function Texts(table: seq<Row>, positions: seq<nat>): (t: seq<string>)
      requires forall k :: 0 <= k < |positions| ==> positions[k] < |table|
      ensures |t| == |positions|
      ensures forall k :: 0 <= k < |t| ==> t[k] == TextOf(table[positions[k]])
    {
      seq(|positions|, k requires 0 <= k < |positions| => TextOf(table[positions[k]]))
    }

    function Written(r: Row, result: Option<Vec>): Row {
      if result.Some? then Row(r.content, Some(TextOf(r)), result) else r
    }
  }

  /**
   * The search text of a row is that of its content; a result is a vector exactly when one came back that is not
   * all zero.
   */
  lemma ServicesAre(s: Services, r: Row, page: nat, texts: seq<string>, k: nat)
    requires k < |texts|
    ensures s.TextOf(r) == s.text(r.content)
    ensures var raw := s.embed(page, texts);
            s.Results(page, texts)[k]
            == if k < |raw| && raw[k].Some? && (exists i :: 0 <= i < |raw[k].value| && raw[k].value[i] != 0.0)
               then raw[k] else None
  {
  }

  /** Whatever a page returns for a text is the vector f gives that text. */
  ghost predicate Faithful(s: Services, f: string -> Vec) {
    forall page: nat, texts: seq<string>, k: nat {:trigger s.Results(page, texts)[k]} ::
      k < |texts| && s.Results(page, texts)[k].Some? ==> s.Results(page, texts)[k].value == f(texts[k])
  }

  /** A page embeds at least one of its texts. */
  ghost predicate EmbedsSome(s: Services, page: nat, texts: seq<string>) {
    exists k :: 0 <= k < |texts| && s.Results(page, texts)[k].Some?
  }

  ghost predicate NeverFails(s: Services) {
    forall page: nat, texts: seq<string>, k: nat {:trigger s.Results(page, texts)[k]} ::
      k < |texts| ==> s.Results(page, texts)[k].Some?
  }

  ghost function Missing(table: seq<Row>): set<nat> {
    set i: nat | i < |table| && table[i].embedding == None
  }

  /** The first `limit` rows without an embedding, by id, from position `from` on. */
  function FirstMissing(table: seq<Row>, from: nat, limit: nat): (r: seq<nat>)
    requires from <= |table|
    ensures |r| <= limit
    ensures forall k :: 0 <= k < |r| ==> from <= r[k] < |table| && table[r[k]].embedding == None
    ensures forall j, k :: 0 <= j < k < |r| ==> r[j] < r[k]
    ensures limit > 0 ==> (r == [] <==> forall i :: from <= i < |table| ==> table[i].embedding.Some?)
    decreases |table| - from
  {
    if limit == 0 || from == |table| then []
    else if table[from].embedding == None then [from] + FirstMissing(table, from + 1, limit - 1)
    else FirstMissing(table, from + 1, limit)
  }

  /** The positions of at most `limit` of n rows, by id, from an offset on. */
  function Slice(n: nat, offset: nat, limit: nat): (r: seq<nat>)
    ensures forall k :: 0 <= k < |r| ==> r[k] == offset + k < n
    ensures |r| == Max(0, Min(limit, n - offset))
  {
    seq(Max(0, Min(limit, n - offset)), k requires 0 <= k => offset + k)
  }

  ghost predicate Increasing(positions: seq<nat>) {
    forall j, k :: 0 <= j < k < |positions| ==> positions[j] < positions[k]
  }

  lemma MissingShrinks(table: seq<Row>, i: nat, row: Row)
    requires i < |table| && row.embedding.Some?
    ensures Missing(table[i := row]) == Missing(table) - {i}
    ensures table[i].embedding == None ==> |Missing(table[i := row])| == |Missing(table)| - 1
  {
  }

  /**
   * A row after its result: with a vector it holds that vector and its own search text, without one it is left
   * alone.
   */
  ghost predicate Holds(s: Services, before: Row, result: Option<Vec>, after: Row) {
    if result == None then after == before
    else
      && after.content == before.content
      && after.searchText == Some(s.text(before.content))
      && after.embedding == result
  }

  /** One page as a relation: each fetched row gets its own result, every other row is left alone. */
  ghost predicate PageStep(s: Services, page: nat, before: seq<Row>, positions: seq<nat>, after: seq<Row>)
    requires forall k :: 0 <= k < |positions| ==> positions[k] < |before|
  {
    var results := s.Results(page, s.Texts(before, positions));
    && |after| == |before|
    && (forall k :: 0 <= k < |positions| ==> Holds(s, before[positions[k]], results[k], after[positions[k]]))
    && forall i :: 0 <= i < |after| && i !in positions ==> after[i] == before[i]
  }

  /** The row keeps its content, and has its own search text and the vector of that text. */
  ghost predicate EmbeddedRow(s: Services, f: string -> Vec, before: Row, after: Row) {
    && after.content == before.content
    && after.searchText == Some(s.text(before.content))
    && after.embedding == Some(f(s.text(before.content)))
  }

  /** The write-back of the first k results. */
  ghost predicate Partly(s: Services, before: seq<Row>, positions: seq<nat>, results: seq<Option<Vec>>, k: nat,
                         now: seq<Row>)
    requires |results| == |positions| && forall j :: 0 <= j < |positions| ==> positions[j] < |before|
  {
    && |now| == |before|
    && (forall j :: 0 <= j < |positions| ==>
          Holds(s, before[positions[j]], if j < k then results[j] else None, now[positions[j]]))
    && forall i :: 0 <= i < |now| && i !in positions ==> now[i] == before[i]
  }

  lemma PartlyNext(s: Services, before: seq<Row>, positions: seq<nat>, results: seq<Option<Vec>>, k: nat, now: seq<Row>)
    requires |results| == |positions| && forall j :: 0 <= j < |positions| ==> positions[j] < |before|
    requires Increasing(positions) && k < |positions| && Partly(s, before, positions, results, k, now)
    ensures now[positions[k]] == before[positions[k]]
    ensures Partly(s, before, positions, results, k + 1, now[positions[k] := s.Written(now[positions[k]], results[k])])
  {
  }

  /** The table once the first k results of a page are written back. */
  function WriteBack(s: Services, table: seq<Row>, positions: seq<nat>, results: seq<Option<Vec>>, k: nat)
    : (now: seq<Row>)
    requires k <= |positions| == |results| && forall j :: 0 <= j < |positions| ==> positions[j] < |table|
    ensures |now| == |table|
  {
    if k == 0 then table
    else
      var before, i := WriteBack(s, table, positions, results, k - 1), positions[k - 1];
      before[i := s.Written(before[i], results[k - 1])]
  }

  lemma {:induction false} WriteBackIsPartly(s: Services, table: seq<Row>, positions: seq<nat>,
                                             results: seq<Option<Vec>>, k: nat)
    requires k <= |positions| == |results| && forall j :: 0 <= j < |positions| ==> positions[j] < |table|
    requires Increasing(positions)
    ensures Partly(s, table, positions, results, k, WriteBack(s, table, positions, results, k))
  {
    if k > 0 {
      WriteBackIsPartly(s, table, positions, results, k - 1);
      PartlyNext(s, table, positions, results, k - 1, WriteBack(s, table, positions, results, k - 1));
    }
  }

  lemma PartlyUnique(s: Services, table: seq<Row>, positions: seq<nat>, results: seq<Option<Vec>>, k: nat,
                     a: seq<Row>, b: seq<Row>)
    requires |results| == |positions| && forall j :: 0 <= j < |positions| ==> positions[j] < |table|
    requires Partly(s, table, positions, results, k, a) && Partly(s, table, positions, results, k, b)
    ensures a == b
  {
  }

  /** The table a page leaves behind. */
  function AfterPage(s: Services, page: nat, table: seq<Row>, positions: seq<nat>): (after: seq<Row>)
    requires forall k :: 0 <= k < |positions| ==> positions[k] < |table|
    ensures |after| == |table|
  {
    WriteBack(s, table, positions, s.Results(page, s.Texts(table, positions)), |positions|)
  }

  lemma AfterPageIsPageStep(s: Services, page: nat, table: seq<Row>, positions: seq<nat>)
    requires Increasing(positions) && forall k :: 0 <= k < |positions| ==> positions[k] < |table|
    ensures PageStep(s, page, table, positions, AfterPage(s, page, table, positions))
  {
    WriteBackIsPartly(s, table, positions, s.Results(page, s.Texts(table, positions)), |positions|);
  }

  /** A page step determines the table it leaves. */
  lemma PageStepIsAfterPage(s: Services, page: nat, before: seq<Row>, positions: seq<nat>, now: seq<Row>)
    requires Increasing(positions) && forall k :: 0 <= k < |positions| ==> positions[k] < |before|
    requires PageStep(s, page, before, positions, now)
    ensures now == AfterPage(s, page, before, positions)
  {
    var results := s.Results(page, s.Texts(before, positions));
    WriteBackIsPartly(s, before, positions, results, |positions|);
    PartlyUnique(s, before, positions, results, |positions|, now, AfterPage(s, page, before, positions));
  }

  /** A row that is rewritten holds its own search text and the vector of that text. */
  ghost predicate RowKeptOrEmbedded(s: Services, f: string -> Vec, before: Row, after: Row) {
    after == before || EmbeddedRow(s, f, before, after)
  }

  ghost predicate Progress(s: Services, f: string -> Vec, start: seq<Row>, now: seq<Row>) {
    && |now| == |start|
    && forall i :: 0 <= i < |start| ==> RowKeptOrEmbedded(s, f, start[i], now[i])
  }

  lemma PageStepProgress(s: Services, f: string -> Vec, page: nat, start: seq<Row>, before: seq<Row>,
                         positions: seq<nat>, after: seq<Row>)
    requires Faithful(s, f) && Progress(s, f, start, before)
    requires forall k :: 0 <= k < |positions| ==> positions[k] < |before|
    requires PageStep(s, page, before, positions, after)
    ensures Progress(s, f, start, after)
  {
  }

  /** Without failures every fetched row ends up with the vector of its own text. */
  lemma PageStepEmbeds(s: Services, f: string -> Vec, page: nat, before: seq<Row>, positions: seq<nat>, after: seq<Row>)
    requires Faithful(s, f) && NeverFails(s)
    requires forall k :: 0 <= k < |positions| ==> positions[k] < |before|
    requires PageStep(s, page, before, positions, after)
    ensures forall k :: 0 <= k < |positions| ==> EmbeddedRow(s, f, before[positions[k]], after[positions[k]])
  {
  }

  /** A page of missing rows never makes more rows missing, and makes fewer exactly when it embeds something. */
  lemma PageStepMissing(s: Services, page: nat, before: seq<Row>, positions: seq<nat>, after: seq<Row>)
    requires forall k :: 0 <= k < |positions| ==> positions[k] < |before| && before[positions[k]].embedding == None
    requires PageStep(s, page, before, positions, after)
    ensures Missing(after) <= Missing(before)
    ensures Missing(after) < Missing(before) <==> EmbedsSome(s, page, s.Texts(before, positions))
  {
    var texts := s.Texts(before, positions);
    forall i | i in Missing(after) ensures i in Missing(before) {
      if i in positions {
        var k :| 0 <= k < |positions| && positions[k] == i;
      }
    }
    if EmbedsSome(s, page, texts) {
      var k :| 0 <= k < |texts| && s.Results(page, texts)[k].Some?;
      assert positions[k] in Missing(before) && positions[k] !in Missing(after);
    }
    if Missing(after) < Missing(before) {
      var i :| i in Missing(before) && i !in Missing(after);
      var k :| 0 <= k < |positions| && positions[k] == i;
      assert s.Results(page, texts)[k].Some?;
    }
  }

  lemma NothingFetched(table: seq<Row>, limit: nat)
    requires limit > 0
    ensures FirstMissing(table, 0, limit) == [] <==> Missing(table) == {}
  {
    if FirstMissing(table, 0, limit) != [] {
      assert FirstMissing(table, 0, limit)[0] in Missing(table);
    }
  }

  // ---------------------------------------------------------------------------
  // The normal mode, page by page
  // ---------------------------------------------------------------------------

  /** What page n makes of the table it finds. */
  type Pages = (nat, seq<Row>) -> seq<Row>

  function Next(pages: Pages, n: nat, table: seq<Row>): seq<Row> {
    pages(n, table)
  }

  /** The pages of the normal mode: each fetches the first rows still missing. */
  function PagesOf(s: Services, batchSize: nat): Pages {
    (n: nat, table: seq<Row>) => AfterPage(s, n, table, FirstMissing(table, 0, batchSize))
  }

  /** The table after n pages. */
  function After(pages: Pages, table: seq<Row>, n: nat): seq<Row> {
    if n == 0 then table else Next(pages, n - 1, After(pages, table, n - 1))
  }

  /** Some fetch is empty. */
  ghost predicate Ends(pages: Pages, table: seq<Row>, batchSize: nat) {
    exists n: nat :: FirstMissing(After(pages, table, n), 0, batchSize) == []
  }

  /** Page n leaves fewer rows missing than it finds. */
  ghost predicate Embeds(pages: Pages, table: seq<Row>, n: nat) {
    Missing(After(pages, table, n + 1)) < Missing(After(pages, table, n))
  }

  /** No page makes a row missing. */
  ghost predicate OnlyEmbeds(pages: Pages) {
    forall n: nat, table: seq<Row> :: Missing(Next(pages, n, table)) <= Missing(table)
  }

  lemma PagesOnlyEmbed(s: Services, batchSize: nat)
    ensures OnlyEmbeds(PagesOf(s, batchSize))
  {
    forall n: nat, table: seq<Row> ensures Missing(Next(PagesOf(s, batchSize), n, table)) <= Missing(table) {
      var positions := FirstMissing(table, 0, batchSize);
      AfterPageIsPageStep(s, n, table, positions);
      PageStepMissing(s, n, table, positions, AfterPage(s, n, table, positions));
    }
  }

  lemma {:induction false} MissingOnlyShrinks(pages: Pages, table: seq<Row>, n: nat, later: nat)
    requires OnlyEmbeds(pages) && n <= later
    ensures Missing(After(pages, table, later)) <= Missing(After(pages, table, n))
    decreases later
  {
    if n < later {
      MissingOnlyShrinks(pages, table, n, later - 1);
    }
  }

  /** While rows are missing, some later page embeds one. */
  ghost predicate KeepsEmbedding(pages: Pages, table: seq<Row>) {
    forall n: nat {:trigger EmbedsFrom(pages, table, n)} ::
      Missing(After(pages, table, n)) != {} ==> EmbedsFrom(pages, table, n)
  }

  ghost predicate EmbedsFrom(pages: Pages, table: seq<Row>, n: nat) {
    exists later: nat :: n <= later && Embeds(pages, table, later)
  }

  /** Between two tables with different missing rows, some page embeds one. */
  lemma {:induction false} ShrinkingPage(pages: Pages, table: seq<Row>, n: nat, end: nat)
    requires OnlyEmbeds(pages) && n <= end
    requires Missing(After(pages, table, n)) != Missing(After(pages, table, end))
    ensures EmbedsFrom(pages, table, n)
    decreases end
  {
    MissingOnlyShrinks(pages, table, end - 1, end);
    if !Embeds(pages, table, end - 1) {
      ShrinkingPage(pages, table, n, end - 1);
    }
  }

  lemma {:induction false} RunsDry(pages: Pages, table: seq<Row>, n: nat) returns (end: nat)
    requires OnlyEmbeds(pages) && KeepsEmbedding(pages, table)
    ensures Missing(After(pages, table, end)) == {}
    decreases |Missing(After(pages, table, n))|
  {
    var missing := Missing(After(pages, table, n));
    end := n;
    if missing != {} {
      assert EmbedsFrom(pages, table, n);
      var later: nat :| n <= later && Embeds(pages, table, later);
      MissingOnlyShrinks(pages, table, n, later);
      SubsetCardinality(Missing(After(pages, table, later + 1)), missing);
      end := RunsDry(pages, table, later + 1);
    }
  }

  /** The run ends exactly when it never goes on failing for good; single pages may fail as they like. */
  lemma EndsIffKeepsEmbedding(pages: Pages, table: seq<Row>, batchSize: nat)
    requires batchSize > 0 && OnlyEmbeds(pages)
    ensures Ends(pages, table, batchSize) <==> KeepsEmbedding(pages, table)
  {
    if Ends(pages, table, batchSize) {
      var end: nat :| FirstMissing(After(pages, table, end), 0, batchSize) == [];
      NothingFetched(After(pages, table, end), batchSize);
      forall n: nat | Missing(After(pages, table, n)) != {} ensures EmbedsFrom(pages, table, n) {
        if end <= n {
          MissingOnlyShrinks(pages, table, end, n);
        } else {
          ShrinkingPage(pages, table, n, end);
        }
      }
    }
    if KeepsEmbedding(pages, table) {
      var end := RunsDry(pages, table, 0);
      NothingFetched(After(pages, table, end), batchSize);
    }
  }

  /** A nonempty fetch that embeds one of its texts leaves fewer rows missing. */
  lemma FetchEmbeds(s: Services, table: seq<Row>, batchSize: nat, n: nat)
    requires var before := After(PagesOf(s, batchSize), table, n);
             EmbedsSome(s, n, s.Texts(before, FirstMissing(before, 0, batchSize)))
    ensures Embeds(PagesOf(s, batchSize), table, n)
  {
    var before := After(PagesOf(s, batchSize), table, n);
    var positions := FirstMissing(before, 0, batchSize);
    AfterPageIsPageStep(s, n, before, positions);
    PageStepMissing(s, n, before, positions, AfterPage(s, n, before, positions));
    assert After(PagesOf(s, batchSize), table, n + 1) == AfterPage(s, n, before, positions);
  }

  /** A run in which no row fails ends. */
  lemma NeverFailingEnds(s: Services, table: seq<Row>, batchSize: nat)
    requires NeverFails(s)
    ensures Ends(PagesOf(s, batchSize), table, batchSize)
  {
    var pages := PagesOf(s, batchSize);
    if batchSize == 0 {
      assert FirstMissing(After(pages, table, 0), 0, batchSize) == [];
    } else {
      forall n: nat | Missing(After(pages, table, n)) != {} ensures EmbedsFrom(pages, table, n) {
        var before := After(pages, table, n);
        NothingFetched(before, batchSize);
        var texts := s.Texts(before, FirstMissing(before, 0, batchSize));
        assert s.Results(n, texts)[0].Some?;
        FetchEmbeds(s, table, batchSize, n);
      }
      PagesOnlyEmbed(s, batchSize);
      EndsIffKeepsEmbedding(pages, table, batchSize);
    }
  }

  // ---------------------------------------------------------------------------
  // Rows that always fail
  // ---------------------------------------------------------------------------

  /** Row i, when missing with this content, is still so after any page. */
  ghost predicate KeepsRow(pages: Pages, i: nat, row: Row) {
    forall n: nat, table: seq<Row> :: RowIs(table, i, row) ==> RowIs(Next(pages, n, table), i, row)
  }

  ghost predicate RowIs(table: seq<Row>, i: nat, row: Row) {
    i < |table| && table[i] == row
  }

  lemma {:induction false} RowKept(pages: Pages, table: seq<Row>, i: nat, row: Row, n: nat)
    requires KeepsRow(pages, i, row) && RowIs(table, i, row)
    ensures RowIs(After(pages, table, n), i, row)
  {
    if n > 0 {
      RowKept(pages, table, i, row, n - 1);
    }
  }

  lemma FailingRowKept(s: Services, batchSize: nat, i: nat, row: Row)
    requires forall page: nat, texts: seq<string>, k: nat {:trigger s.Results(page, texts)[k]} ::
               k < |texts| && texts[k] == s.TextOf(row) ==> s.Results(page, texts)[k] == None
    ensures KeepsRow(PagesOf(s, batchSize), i, row)
  {
    forall n: nat, table: seq<Row> | RowIs(table, i, row) ensures RowIs(Next(PagesOf(s, batchSize), n, table), i, row) {
      var positions := FirstMissing(table, 0, batchSize);
      AfterPageIsPageStep(s, n, table, positions);
      if i in positions {
        var k :| 0 <= k < |positions| && positions[k] == i;
        assert s.Results(n, s.Texts(table, positions))[k] == None;
      }
    }
  }

  /** A row whose text never gets a vector is still missing after any number of pages, so no fetch is empty. */
  lemma FailingRowNeverEnds(s: Services, table: seq<Row>, batchSize: nat, i: nat)
    requires batchSize > 0 && i in Missing(table)
    requires forall page: nat, texts: seq<string>, k: nat {:trigger s.Results(page, texts)[k]} ::
               k < |texts| && texts[k] == s.TextOf(table[i]) ==> s.Results(page, texts)[k] == None
    ensures forall n: nat :: RowIs(After(PagesOf(s, batchSize), table, n), i, table[i])
    ensures !Ends(PagesOf(s, batchSize), table, batchSize)
  {
    var pages := PagesOf(s, batchSize);
    FailingRowKept(s, batchSize, i, table[i]);
    forall n: nat
      ensures RowIs(After(pages, table, n), i, table[i]) && FirstMissing(After(pages, table, n), 0, batchSize) != []
    {
      RowKept(pages, table, i, table[i], n);
      NothingFetched(After(pages, table, n), batchSize);
      assert i in Missing(After(pages, table, n));
    }
  }

  // ---------------------------------------------------------------------------
  // Steady failures: the same texts fail on every page
  // ---------------------------------------------------------------------------

  /** A text that fails once fails always. */
  ghost predicate Steady(s: Services, bad: string -> bool) {
    forall page: nat, texts: seq<string>, k: nat {:trigger s.Results(page, texts)[k]} ::
      k < |texts| ==> (s.Results(page, texts)[k] == None <==> bad(texts[k]))
  }

  /** The rows of the failing texts. */
  type Badness = Row -> bool

  predicate Bad(badness: Badness, r: Row) {
    badness(r)
  }

  /** A row stays missing, as it was, exactly when it is bad or not fetched. */
  ghost predicate StaysMissingIff(badness: Badness, batchSize: nat, before: seq<Row>, after: seq<Row>, i: nat) {
    && (i in Missing(after) <==>
          i in Missing(before) && (Bad(badness, before[i]) || i !in FirstMissing(before, 0, batchSize)))
    && (i in Missing(after) ==> after[i] == before[i])
  }

  ghost predicate SteadyPages(pages: Pages, badness: Badness, batchSize: nat) {
    forall n: nat, table: seq<Row>, i: nat :: StaysMissingIff(badness, batchSize, table, Next(pages, n, table), i)
  }

  function BadRows(s: Services, bad: string -> bool): Badness {
    (r: Row) => bad(s.TextOf(r))
  }

  lemma SteadyServices(s: Services, bad: string -> bool, batchSize: nat)
    requires Steady(s, bad)
    ensures SteadyPages(PagesOf(s, batchSize), BadRows(s, bad), batchSize)
  {
    forall n: nat, table: seq<Row>, i: nat
      ensures StaysMissingIff(BadRows(s, bad), batchSize, table, Next(PagesOf(s, batchSize), n, table), i)
    {
      var positions := FirstMissing(table, 0, batchSize);
      AfterPageIsPageStep(s, n, table, positions);
      if i in positions {
        var k :| 0 <= k < |positions| && positions[k] == i;
        assert s.Results(n, s.Texts(table, positions))[k] == None <==> Bad(BadRows(s, bad), table[i]);
      }
    }
  }

  /** The missing rows from `from` up to position j. */
  ghost function MissingBefore(table: seq<Row>, from: nat, j: nat): set<nat> {
    set i | i in Missing(table) && from <= i < j
  }

  /** The bad ones among the missing rows before position j. */
  ghost function BadBefore(badness: Badness, table: seq<Row>, j: nat): set<nat> {
    set i | i in Missing(table) && i < j && Bad(badness, table[i])
  }

  /** A fetch takes exactly the missing rows with fewer than `limit` missing rows before them. */
  lemma {:induction false} FetchedIff(table: seq<Row>, from: nat, limit: nat, j: nat)
    requires from <= |table|
    ensures j in FirstMissing(table, from, limit)
       <==> j in Missing(table) && from <= j && |MissingBefore(table, from, j)| < limit
    decreases |table| - from
  {
    if limit > 0 && from < |table| {
      MissingFrom(table, from, j);
      if table[from].embedding == None {
        FetchedIff(table, from + 1, limit - 1, j);
        assert j in FirstMissing(table, from, limit) <==> j == from || j in FirstMissing(table, from + 1, limit - 1);
      } else {
        FetchedIff(table, from + 1, limit, j);
      }
    }
  }

  /** Counting the missing rows before j from one position further on. */
  lemma MissingFrom(table: seq<Row>, from: nat, j: nat)
    requires from < |table|
    ensures |MissingBefore(table, from, j)|
         == |MissingBefore(table, from + 1, j)| + if from < j && table[from].embedding == None then 1 else 0
    ensures j <= from ==> |MissingBefore(table, from, j)| == 0
  {
    if from < j && table[from].embedding == None {
      assert MissingBefore(table, from, j) == {from} + MissingBefore(table, from + 1, j);
    } else {
      assert MissingBefore(table, from, j) == MissingBefore(table, from + 1, j);
    }
    if j <= from {
      assert MissingBefore(table, from, j) == {};
    }
  }

  /** Rows that stay missing stay as they were, and bad rows do stay missing. */
  lemma {:induction false} SteadyRows(pages: Pages, badness: Badness, table: seq<Row>, batchSize: nat, n: nat, i: nat)
    requires SteadyPages(pages, badness, batchSize)
    ensures var now := After(pages, table, n);
            && (i in Missing(now) ==> i in Missing(table) && now[i] == table[i])
            && (i in Missing(table) && Bad(badness, table[i]) ==> i in Missing(now))
  {
    if n > 0 {
      SteadyRows(pages, badness, table, batchSize, n - 1, i);
      var before := After(pages, table, n - 1);
      assert StaysMissingIff(badness, batchSize, before, Next(pages, n - 1, before), i);
    }
  }

  /** A row with too many bad rows before it is never fetched. */
  lemma {:induction false} Starves(pages: Pages, badness: Badness, table: seq<Row>, batchSize: nat, j: nat, n: nat)
    requires SteadyPages(pages, badness, batchSize) && j in Missing(table)
             && batchSize <= |BadBefore(badness, table, j)|
    ensures j in Missing(After(pages, table, n))
  {
    if n > 0 {
      Starves(pages, badness, table, batchSize, j, n - 1);
      var before := After(pages, table, n - 1);
      forall i | i in BadBefore(badness, table, j) ensures i in MissingBefore(before, 0, j) {
        SteadyRows(pages, badness, table, batchSize, n - 1, i);
      }
      SubsetCardinality(BadBefore(badness, table, j), MissingBefore(before, 0, j));
      FetchedIff(before, 0, batchSize, j);
      assert StaysMissingIff(badness, batchSize, before, Next(pages, n - 1, before), j);
    }
  }

  /** The first good missing row, at or before j. */
  lemma {:induction false} FirstGood(badness: Badness, table: seq<Row>, j: nat) returns (i: nat)
    requires j in Missing(table) && !Bad(badness, table[j])
    ensures i <= j && i in Missing(table) && !Bad(badness, table[i])
    ensures MissingBefore(table, 0, i) == BadBefore(badness, table, i)
  {
    if i' :| i' in MissingBefore(table, 0, j) && !Bad(badness, table[i']) {
      i := FirstGood(badness, table, i');
    } else {
      i := j;
    }
  }

  /** With fewer than batchSize bad rows before it, a good row is embedded by some page from page n on. */
  lemma {:induction false} Reaches(pages: Pages, badness: Badness, table: seq<Row>, batchSize: nat, j: nat, n: nat)
    returns (end: nat)
    requires OnlyEmbeds(pages) && SteadyPages(pages, badness, batchSize)
    requires j in Missing(table) && !Bad(badness, table[j]) && |BadBefore(badness, table, j)| < batchSize
    ensures j !in Missing(After(pages, table, end))
    decreases |Missing(After(pages, table, n))|
  {
    var before := After(pages, table, n);
    if j !in Missing(before) {
      return n;
    }
    SteadyRows(pages, badness, table, batchSize, n, j);
    var i := FirstGood(badness, before, j);
    forall b | b in BadBefore(badness, before, i) ensures b in BadBefore(badness, table, j) {
      SteadyRows(pages, badness, table, batchSize, n, b);
    }
    SubsetCardinality(BadBefore(badness, before, i), BadBefore(badness, table, j));
    FetchedIff(before, 0, batchSize, i);
    assert StaysMissingIff(badness, batchSize, before, Next(pages, n, before), i);
    MissingOnlyShrinks(pages, table, n, n + 1);
    SubsetCardinality(Missing(After(pages, table, n + 1)), Missing(before));
    end := Reaches(pages, badness, table, batchSize, j, n + 1);
  }

  /**
   * Head-of-line starvation, exactly: when the same texts always fail, a good missing row is ever
   * embedded if and only if fewer than batchSize bad missing rows come before it.
   */
  lemma EmbeddedIffNotStarved(s: Services, bad: string -> bool, table: seq<Row>, batchSize: nat, j: nat)
    requires Steady(s, bad) && j in Missing(table) && !bad(s.TextOf(table[j]))
    ensures (exists n: nat :: j !in Missing(After(PagesOf(s, batchSize), table, n)))
       <==> |BadBefore(BadRows(s, bad), table, j)| < batchSize
  {
    var pages, badness := PagesOf(s, batchSize), BadRows(s, bad);
    SteadyServices(s, bad, batchSize);
    if |BadBefore(badness, table, j)| < batchSize {
      PagesOnlyEmbed(s, batchSize);
      var end := Reaches(pages, badness, table, batchSize, j, 0);
    } else {
      forall n: nat ensures j in Missing(After(pages, table, n)) {
        Starves(pages, badness, table, batchSize, j, n);
      }
    }
  }

  lemma {:induction false} NothingWritten(s: Services, table: seq<Row>, positions: seq<nat>,
                                          results: seq<Option<Vec>>, k: nat)
    requires k <= |positions| == |results| && forall j :: 0 <= j < |positions| ==> positions[j] < |table|
    requires forall j :: 0 <= j < k ==> results[j] == None
    ensures WriteBack(s, table, positions, results, k) == table
  {
    if k > 0 {
      NothingWritten(s, table, positions, results, k - 1);
    }
  }

  lemma BadBatch(s: Services, bad: string -> bool, table: seq<Row>, positions: seq<nat>, n: nat)
    requires Steady(s, bad)
    requires forall k :: 0 <= k < |positions| ==> positions[k] < |table| && bad(s.TextOf(table[positions[k]]))
    ensures AfterPage(s, n, table, positions) == table
  {
    var texts := s.Texts(table, positions);
    forall k | 0 <= k < |positions| ensures s.Results(n, texts)[k] == None {
      assert bad(texts[k]);
    }
    NothingWritten(s, table, positions, s.Results(n, texts), |positions|);
  }

  /** A first batch of bad rows is fetched for ever: no page changes the table. */
  lemma {:induction false} BadBatchStalls(s: Services, bad: string -> bool, table: seq<Row>, batchSize: nat, n: nat)
    requires Steady(s, bad) && forall i :: i in FirstMissing(table, 0, batchSize) ==> bad(s.TextOf(table[i]))
    ensures After(PagesOf(s, batchSize), table, n) == table
  {
    if n > 0 {
      BadBatchStalls(s, bad, table, batchSize, n - 1);
      var positions := FirstMissing(table, 0, batchSize);
      assert forall k :: 0 <= k < |positions| ==> positions[k] in positions;
      BadBatch(s, bad, table, positions, n - 1);
    }
  }

  /** When the same texts always fail, the run ends exactly when no missing row has one of them. */
  lemma SteadyRunEndsIff(s: Services, bad: string -> bool, table: seq<Row>, batchSize: nat)
    requires Steady(s, bad) && batchSize > 0
    ensures Ends(PagesOf(s, batchSize), table, batchSize)
       <==> forall i :: i in Missing(table) ==> !bad(s.TextOf(table[i]))
  {
    var pages, badness := PagesOf(s, batchSize), BadRows(s, bad);
    if i :| i in Missing(table) && bad(s.TextOf(table[i])) {
      FailingRowNeverEnds(s, table, batchSize, i);
    } else {
      SteadyServices(s, bad, batchSize);
      forall n: nat | Missing(After(pages, table, n)) != {} ensures EmbedsFrom(pages, table, n) {
        var before := After(pages, table, n);
        NothingFetched(before, batchSize);
        var positions := FirstMissing(before, 0, batchSize);
        SteadyRows(pages, badness, table, batchSize, n, positions[0]);
        assert s.Results(n, s.Texts(before, positions))[0].Some?;
        FetchEmbeds(s, table, batchSize, n);
      }
      PagesOnlyEmbed(s, batchSize);
      EndsIffKeepsEmbedding(pages, table, batchSize);
    }
  }

  // ---------------------------------------------------------------------------
  // The run
  // ---------------------------------------------------------------------------

  /** Rows that had an embedding at the start are as they were. */
  ghost predicate KeepsEmbedded(start: seq<Row>, now: seq<Row>) {
    |now| == |start| && forall i :: 0 <= i < |start| && start[i].embedding.Some? ==> now[i] == start[i]
  }

  lemma MissingPageKeeps(s: Services, page: nat, start: seq<Row>, before: seq<Row>, positions: seq<nat>,
                         after: seq<Row>)
    requires KeepsEmbedded(start, before)
    requires forall k :: 0 <= k < |positions| ==> positions[k] < |before| && before[positions[k]].embedding == None
    requires PageStep(s, page, before, positions, after)
    ensures KeepsEmbedded(start, after)
  {
  }

  /** What the normal mode makes of its table when it ends: missing rows embedded, the others as they were. */
  ghost predicate AllEmbedded(s: Services, f: string -> Vec, start: seq<Row>, now: seq<Row>) {
    && |now| == |start|
    && forall i :: 0 <= i < |start| ==>
         if start[i].embedding == None then EmbeddedRow(s, f, start[i], now[i]) else now[i] == start[i]
  }

  lemma NothingMissing(s: Services, f: string -> Vec, start: seq<Row>, now: seq<Row>)
    requires Progress(s, f, start, now) && KeepsEmbedded(start, now) && Missing(now) == {}
    ensures AllEmbedded(s, f, start, now)
  {
    forall i | 0 <= i < |start| && start[i].embedding == None ensures EmbeddedRow(s, f, start[i], now[i]) {
      assert i !in Missing(now);
      assert RowKeptOrEmbedded(s, f, start[i], now[i]);
    }
  }

  /** Where the normal mode stands after `page` pages. */
  ghost predicate Running(s: Services, f: string -> Vec, batchSize: nat, start: seq<Row>, page: nat, now: seq<Row>) {
    && now == After(PagesOf(s, batchSize), start, page)
    && (Faithful(s, f) ==> Progress(s, f, start, now))
    && KeepsEmbedded(start, now)
  }

  lemma RunningEnds(s: Services, f: string -> Vec, batchSize: nat, start: seq<Row>, page: nat, now: seq<Row>)
    requires Running(s, f, batchSize, start, page, now) && (batchSize > 0 ==> Missing(now) == {})
    ensures KeepsEmbedded(start, now) && (batchSize > 0 && Faithful(s, f) ==> AllEmbedded(s, f, start, now))
  {
    if batchSize > 0 && Faithful(s, f) {
      NothingMissing(s, f, start, now);
    }
  }

  lemma RunningOn(s: Services, f: string -> Vec, batchSize: nat, start: seq<Row>, page: nat, last: nat,
                  before: seq<Row>, positions: seq<nat>, after: seq<Row>)
    requires Running(s, f, batchSize, start, page, before) && positions == FirstMissing(before, 0, batchSize)
    requires page <= last && positions != []
             && FirstMissing(After(PagesOf(s, batchSize), start, last), 0, batchSize) == []
    requires PageStep(s, page, before, positions, after)
    ensures page < last && Running(s, f, batchSize, start, page + 1, after)
  {
    PageStepIsAfterPage(s, page, before, positions, after);
    MissingPageKeeps(s, page, start, before, positions, after);
    if Faithful(s, f) {
      PageStepProgress(s, f, page, start, before, positions, after);
    }
  }

  class BackfillRun {
    const services: Services
    var table: seq<Row>
    var total: nat
    var updated: nat
    var failed: nat

    constructor (services: Services, table: seq<Row>)
      ensures this.services == services && this.table == table && total == updated == failed == 0
    {
      this.services, this.table := services, table;
      total, updated, failed := 0, 0, 0;
    }

    /** One page: embed, write back, count every row once as updated or failed. */
    method Page(page: nat, positions: seq<nat>)
      requires Increasing(positions) && forall k :: 0 <= k < |positions| ==> positions[k] < |table|
      modifies this
      ensures PageStep(services, page, old(table), positions, table)
      ensures total == old(total) + |positions|
      ensures updated + failed == old(updated) + old(failed) + |positions|
      ensures NeverFails(services) ==> failed == old(failed)
      ensures (forall k :: 0 <= k < |positions| ==> old(table)[positions[k]].embedding == None)
              ==> updated + |Missing(table)| == old(updated) + |Missing(old(table))|
    {
      var texts := services.Texts(table, positions);
      var results := services.Results(page, texts);
      ghost var allMissing := forall k :: 0 <= k < |positions| ==> table[positions[k]].embedding == None;
      total := total + |positions|;
      for k := 0 to |positions|
        invariant Partly(services, old(table), positions, results, k, table) && total == old(total) + |positions|
        invariant updated + failed == old(updated) + old(failed) + k
        invariant NeverFails(services) ==> failed == old(failed)
        invariant allMissing ==> updated + |Missing(table)| == old(updated) + |Missing(old(table))|
      {
        PartlyNext(services, old(table), positions, results, k, table);
        var i, result := positions[k], results[k];
        if result == None {
          assert !services.Results(page, texts)[k].Some?;
          assert table[i := services.Written(table[i], result)] == table;
          failed := failed + 1;
        } else {
          MissingShrinks(table, i, services.Written(table[i], result));
          table := table[i := services.Written(table[i], result)];
          updated := updated + 1;
        }
      }
    }

    /**
     * Normal mode: always refetch the first rows still missing. Whenever the run ends at all it ends with
     * every missing row embedded with the vector of its own text and all others untouched.
     */
    method RunMissing(batchSize: nat, ghost f: string -> Vec)
      requires total == updated == failed == 0
      requires Ends(PagesOf(services, batchSize), table, batchSize)
      modifies this
      ensures total == updated + failed
      ensures NeverFails(services) ==> failed == 0
      ensures batchSize > 0 ==> Missing(table) == {} && updated == |Missing(old(table))|
      ensures KeepsEmbedded(old(table), table)
      ensures batchSize > 0 && Faithful(services, f) ==> AllEmbedded(services, f, old(table), table)
    {
      var page := 0;
      ghost var last: nat :| FirstMissing(After(PagesOf(services, batchSize), table, last), 0, batchSize) == [];
      while true
        invariant total == updated + failed && (NeverFails(services) ==> failed == 0)
        invariant updated + |Missing(table)| == |Missing(old(table))|
        invariant page <= last && Running(services, f, batchSize, old(table), page, table)
        decreases last - page
      {
        var positions := FirstMissing(table, 0, batchSize);
        if positions == [] {
          if batchSize > 0 {
            NothingFetched(table, batchSize);
          }
          RunningEnds(services, f, batchSize, old(table), page, table);
          return;
        }
        ghost var before := table;
        Page(page, positions);
        RunningOn(services, f, batchSize, old(table), page, last, before, positions, table);
        page := page + 1;
      }
    }

    /** --force: walk all rows by offset. It ends whatever fails, and every row is tried exactly once. */
    method RunForced(batchSize: nat, ghost f: string -> Vec)
      requires total == updated == failed == 0
      modifies this
      ensures batchSize > 0 ==> total == |old(table)|
      ensures total == updated + failed
      ensures NeverFails(services) ==> failed == 0
      ensures Faithful(services, f) ==> Progress(services, f, old(table), table)
      ensures batchSize > 0 && Faithful(services, f) && NeverFails(services) ==>
                forall i :: 0 <= i < |table| ==> EmbeddedRow(services, f, old(table)[i], table[i])
    {
      var offset, page := 0, 0;
      while true
        invariant total == updated + failed == Min(offset, |table|) && (NeverFails(services) ==> failed == 0)
        invariant Faithful(services, f) ==> Progress(services, f, old(table), table)
        invariant |table| == |old(table)|
        invariant forall i :: offset <= i < |table| ==> table[i] == old(table)[i]
        invariant Faithful(services, f) && NeverFails(services) ==>
          forall i :: 0 <= i < Min(offset, |table|) ==> EmbeddedRow(services, f, old(table)[i], table[i])
        decreases |table| - offset
      {
        var positions := Slice(|table|, offset, batchSize);
        if positions == [] {
          return;
        }
        ghost var before := table;
        Page(page, positions);
        if Faithful(services, f) {
          PageStepProgress(services, f, page, old(table), before, positions, table);
        }
        if Faithful(services, f) && NeverFails(services) {
          PageStepEmbeds(services, f, page, before, positions, table);
          forall i | offset <= i < Min(offset + batchSize, |table|)
            ensures EmbeddedRow(services, f, old(table)[i], table[i]) {
            assert positions[i - offset] == i;
          }
        }
        offset := offset + batchSize;
        page := page + 1;
      }
    }
  }

  // ---------------------------------------------------------------------------
  // The pooled page
  // ---------------------------------------------------------------------------

  /** Token counter and caps of the pooled path. */
  datatype PoolPlan = PoolPlan(count: string -> int, batchMax: int, tokenBudget: int) {
    function Counts(texts: seq<string>): (r: seq<int>)
      ensures |r| == |texts|
    {
      seq(|texts|, k requires 0 <= k < |texts| => count(texts[k]))
    }

    /** What the page gets from embed_all: any exception fails every row. */
    function Page(pool: EmbedBatcher.Pool<string, Vec>, texts: seq<string>): seq<Option<Vec>> {
      match EmbedBatcher.EmbedSpec(texts, Counts(texts), batchMax, tokenBudget, pool)
      case Err(_) => EmbedBatcher.Nones(|texts|)
      case Ok(v) => v
    }

    /** Services of a run that sends every page through the planner; the pool may change from page to page. */
    function Over(text: string -> string, pools: nat -> EmbedBatcher.Pool<string, Vec>): Services {
      Services(text, (page: nat, texts: seq<string>) => Page(pools(page), texts))
    }
  }

  /** _embed_page_pooled, up to the per-row error texts: a zero vector is a failure too. */
  method EmbedPagePooled(plan: PoolPlan, pool: EmbedBatcher.Pool<string, Vec>, texts: seq<string>)
    returns (out: seq<Option<Vec>>)
    ensures |out| == |texts|
    ensures var v := plan.Page(pool, texts);
            forall k :: 0 <= k < |out| ==> out[k] == if k < |v| && v[k].Some? && !IsZero(v[k].value) then v[k] else None
  {
    var r := EmbedBatcher.EmbedAll(texts, plan.Counts(texts), plan.batchMax, plan.tokenBudget, pool);
    match r
    case Err(_) => out := EmbedBatcher.Nones(|texts|);
    case Ok(vectors) =>
      out := [];
      for k := 0 to |texts|
        invariant |out| == k
        invariant forall j :: 0 <= j < k ==>
          out[j] == if j < |vectors| && vectors[j].Some? && !IsZero(vectors[j].value) then vectors[j] else None
      {
        var ok := k < |vectors| && vectors[k].Some? && !IsZero(vectors[k].value);
        out := out + [if ok then vectors[k] else None];
      }
  }

  ghost predicate PointwisePools(pools: nat -> EmbedBatcher.Pool<string, Vec>, f: string -> Vec) {
    forall page: nat :: EmbedBatcher.Pointwise(pools(page), f)
  }

  /**
   * Through batching and scatter, each row still gets the vector of its own text: a run over pools
   * that embed text by text is faithful, and if they never fail and never give a zero vector, no row fails.
   */
  lemma PooledRunIsFaithful(plan: PoolPlan, text: string -> string, pools: nat -> EmbedBatcher.Pool<string, Vec>,
                            f: string -> Vec)
    requires PointwisePools(pools, f)
    ensures Faithful(plan.Over(text, pools), f)
    ensures (forall page: nat, call: nat, req: seq<string> :: EmbedBatcher.Ask(pools(page), call, req).Vectors?)
            && (forall t :: !IsZero(f(t)))
            ==> NeverFails(plan.Over(text, pools))
  {
    var s := plan.Over(text, pools);
    forall page: nat, texts: seq<string>, k: nat | k < |texts|
      ensures s.Results(page, texts)[k].Some? ==> s.Results(page, texts)[k].value == f(texts[k])
    {
      EmbedBatcher.EmbedAligned(texts, plan.Counts(texts), plan.batchMax, plan.tokenBudget, pools(page), f);
    }
    if (forall page: nat, call: nat, req: seq<string> :: EmbedBatcher.Ask(pools(page), call, req).Vectors?)
      && (forall t :: !IsZero(f(t))) {
      forall page: nat, texts: seq<string>, k: nat | k < |texts|
        ensures s.Results(page, texts)[k].Some?
      {
        var counts := plan.Counts(texts);
        EmbedBatcher.EmbedAligned(texts, counts, plan.batchMax, plan.tokenBudget, pools(page), f);
        EmbedBatcher.AssembleSucceeds(texts, counts, Max(1, plan.batchMax), Max(1, plan.tokenBudget), pools(page),
                                      0, 0);
      }
    }
  }
}
