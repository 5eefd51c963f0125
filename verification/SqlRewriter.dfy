/**
 * Model of the path rewriting in server/app/core/datafusion_client.py: read_parquet and
 * read_csv_auto calls on az:// paths become table aliases t0, t1, ..., each registered
 * for one file. A query is a sequence of tokens; its meaning says which token denotes
 * which file (and reader), with every other token standing for itself.
 */
module SqlRewriter {
  import opened Common

  datatype Reader = Parquet | Csv

  datatype Token =
    | Word(text: string)                   // identifier, keyword, operator, literal
    | Read(reader: Reader, path: string)   // read_parquet('az://...') or read_csv_auto('az://...')

  type Query = seq<Token>

  datatype Denoted =
    | Itself(text: string)
    | File(path: string, reader: Reader)

  // ---------------------------------------------------------------------------
  // Alias names
  // ---------------------------------------------------------------------------

  function Digit(d: nat): char
    requires d < 10
  {
    "0123456789"[d]
  }

  function Decimal(n: nat): (s: string)
    ensures |s| > 0
  {
    if n < 10 then [Digit(n)] else Decimal(n / 10) + [Digit(n % 10)]
  }

  /** The alias of position i: a "t" followed by the position in decimal. */
  function Alias(i: nat): string {
    "t" + Decimal(i)
  }

  lemma DigitInjective(a: nat, b: nat)
    requires a < 10 && b < 10 && Digit(a) == Digit(b)
    ensures a == b
  {
  }

  lemma {:induction false} DecimalInjective(a: nat, b: nat)
    requires Decimal(a) == Decimal(b)
    ensures a == b
  {
    var s, t := Decimal(a), Decimal(b);
    assert s[|s| - 1] == Digit(a % 10) && t[|t| - 1] == Digit(b % 10);
    DigitInjective(a % 10, b % 10);
    if a >= 10 && b >= 10 {
      assert s[..|s| - 1] == Decimal(a / 10) && t[..|t| - 1] == Decimal(b / 10);
      DecimalInjective(a / 10, b / 10);
    }
  }

  /** Distinct positions print as distinct aliases. */
  lemma AliasInjective(a: nat, b: nat)
    ensures Alias(a) == Alias(b) <==> a == b
  {
    if Alias(a) == Alias(b) {
      assert Alias(a)[1..] == Decimal(a) && Alias(b)[1..] == Decimal(b);
      DecimalInjective(a, b);
    }
  }

  // ---------------------------------------------------------------------------
  // What the rewriting produces
  // ---------------------------------------------------------------------------

  /** The paths of the query, each once, in order of first occurrence. */
  function Paths(q: Query): seq<string> {
    if q == [] then []
    else
      var before := Paths(q[..|q| - 1]);
      match q[|q| - 1]
      case Word(_) => before
      case Read(_, p) => if p in before then before else before + [p]
  }

  function PositionOf(paths: seq<string>, p: string): (i: nat)
    requires p in paths
    ensures i < |paths| && paths[i] == p
  {
    if paths[|paths| - 1] == p then |paths| - 1 else PositionOf(paths[..|paths| - 1], p)
  }

  /** A token as a plain word, once each path has the alias of its position. */
  function NameOf(t: Token, paths: seq<string>): string
    requires t.Read? ==> t.path in paths
  {
    match t
    case Word(w) => w
    case Read(_, p) => Alias(PositionOf(paths, p))
  }

  predicate Listed(q: Query, paths: seq<string>) {
    forall i :: 0 <= i < |q| && q[i].Read? ==> q[i].path in paths
  }

  function Renamed(q: Query, paths: seq<string>): seq<string>
    requires Listed(q, paths)
  {
    seq(|q|, i requires 0 <= i < |q| => NameOf(q[i], paths))
  }

  lemma {:induction false} PathsCover(q: Query)
    ensures Distinct(Paths(q))
    ensures forall p :: p in Paths(q) <==> exists i :: 0 <= i < |q| && q[i].Read? && q[i].path == p
  {
    if q != [] {
      var init, last := q[..|q| - 1], q[|q| - 1];
      PathsCover(init);
      forall p ensures p in Paths(q) <==> exists i :: 0 <= i < |q| && q[i].Read? && q[i].path == p {
        if p in Paths(init) {
          var i :| 0 <= i < |init| && init[i].Read? && init[i].path == p;
          assert q[i].Read? && q[i].path == p;
        } else if p in Paths(q) {
          assert q[|q| - 1].Read? && q[|q| - 1].path == p;
        }
      }
    }
  }

  /** First-occurrence order: the paths of a prefix are a prefix of the paths. */
  lemma {:induction false} PathsInOrder(q: Query, n: nat)
    requires n <= |q|
    ensures Paths(q[..n]) <= Paths(q)
    decreases |q|
  {
    if n < |q| {
      var init := q[..|q| - 1];
      PathsInOrder(init, n);
      assert init[..n] == q[..n];
    } else {
      assert q[..n] == q;
    }
  }

  // ---------------------------------------------------------------------------
  // Meaning
  // ---------------------------------------------------------------------------

  /** What the query says before it is rewritten, token by token. */
  function Meaning(q: Query): seq<Denoted> {
    seq(|q|, i requires 0 <= i < |q| =>
      match q[i]
      case Word(w) => Itself(w)
      case Read(r, p) => File(p, r))
  }

  /** The tables a context knows: alias to registered file. */
  type Tables = map<string, Denoted>

  /** What a word says in a context: a registered table name denotes its file. */
  function Resolve(tables: Tables, words: seq<string>): seq<Denoted> {
    seq(|words|, i requires 0 <= i < |words| => if words[i] in tables then tables[words[i]] else Itself(words[i]))
  }

  function Lower(c: char): char {
    if 'A' <= c <= 'Z' then c - 'A' + 'a' else c
  }

  /** The path ends in ".parquet", in any mix of cases. */
  predicate NamesParquet(path: string) {
    var suffix := ".parquet";
    |path| >= |suffix|
    && forall k :: 0 <= k < |suffix| ==> Lower(path[|path| - |suffix| + k]) == suffix[k]
  }

  /** register_parquet or register_csv, chosen by the file name alone. */
  function Registered(path: string): Denoted {
    File(path, if NamesParquet(path) then Parquet else Csv)
  }

  /** The last eight characters spell ".parquet" in any mix of cases. */
  predicate SpellsParquet(p: string) {
    && |p| >= 8
    && forall k :: 0 <= k < 8 ==> p[|p| - 8 + k] == ".parquet"[k] || p[|p| - 8 + k] == ".PARQUET"[k]
  }

  /** A file is registered as Parquet exactly when its path ends so, and as CSV otherwise. */
  lemma RegisteredIs(p: string)
    ensures SpellsParquet(p) ==> Registered(p) == File(p, Parquet)
    ensures !SpellsParquet(p) ==> Registered(p) == File(p, Csv)
  {
    if |p| >= 8 {
      forall k | 0 <= k < 8
        ensures Lower(p[|p| - 8 + k]) == ".parquet"[k]
           <==> p[|p| - 8 + k] == ".parquet"[k] || p[|p| - 8 + k] == ".PARQUET"[k]
      {
        LowerIs(p[|p| - 8 + k], k);
      }
    }
  }

  lemma LowerIs(c: char, k: nat)
    requires k < 8
    ensures Lower(c) == ".parquet"[k] <==> c == ".parquet"[k] || c == ".PARQUET"[k]
  {
  }

  function TablesFor(paths: seq<string>): (t: Tables)
    ensures t.Keys == set i | 0 <= i < |paths| :: Alias(i)
  {
    if paths == [] then map[]
    else TablesFor(paths[..|paths| - 1])[Alias(|paths| - 1) := Registered(paths[|paths| - 1])]
  }

  lemma {:induction false} TablesLookup(paths: seq<string>, i: nat)
    requires i < |paths|
    ensures Alias(i) in TablesFor(paths) && TablesFor(paths)[Alias(i)] == Registered(paths[i])
  {
    AliasInjective(i, |paths| - 1);
    if i < |paths| - 1 {
      TablesLookup(paths[..|paths| - 1], i);
    }
  }

  /** A word of the query that the rewriting would turn into a table reference. */
  predicate Clashes(q: Query, i: nat)
    requires i < |q|
  {
    q[i].Word? && q[i].text in TablesFor(Paths(q))
  }

  /** Forgets which reader opens a file. */
  function FileOnly(d: Denoted): Denoted {
    if d.File? then d.(reader := Parquet) else d
  }

  function FilesOnly(s: seq<Denoted>): seq<Denoted> {
    seq(|s|, i requires 0 <= i < |s| => FileOnly(s[i]))
  }

  /** What the rewritten text says in a context that registered exactly the returned paths. */
  function RewrittenMeaning(q: Query): (r: seq<Denoted>)
    ensures |r| == |q|
  {
    PathsCover(q);
    Resolve(TablesFor(Paths(q)), Renamed(q, Paths(q)))
  }

  lemma MeaningAt(q: Query, i: nat)
    requires i < |q|
    ensures RewrittenMeaning(q)[i] ==
            match q[i]
            case Read(_, p) => Registered(p)
            case Word(w) => if Clashes(q, i) then TablesFor(Paths(q))[w] else Itself(w)
  {
    var paths := Paths(q);
    PathsCover(q);
    if q[i].Read? {
      TablesLookup(paths, PositionOf(paths, q[i].path));
    }
  }

  /**
   * The rewritten query reads the same files in the same places exactly when no word clashes with an
   * alias. Words are compared as written and only registered tables are names: an engine that folds
   * case, or a query that defines an alias itself, is outside this equivalence.
   */
  lemma RewritePreservesFiles(q: Query)
    ensures FilesOnly(RewrittenMeaning(q)) == FilesOnly(Meaning(q))
       <==> forall i :: 0 <= i < |q| ==> !Clashes(q, i)
  {
    var got, want := FilesOnly(RewrittenMeaning(q)), FilesOnly(Meaning(q));
    forall i | 0 <= i < |q| ensures got[i] == want[i] <==> !Clashes(q, i) {
      MeaningAt(q, i);
      if Clashes(q, i) {
        ClashDenotesFile(Paths(q), q[i].text);
      }
    }
    if got == want {
      forall i | 0 <= i < |q| ensures !Clashes(q, i) {
        assert got[i] == want[i];
      }
    }
  }

  lemma {:induction false} ClashDenotesFile(paths: seq<string>, word: string)
    requires word in TablesFor(paths)
    ensures TablesFor(paths)[word].File?
  {
    if word != Alias(|paths| - 1) {
      ClashDenotesFile(paths[..|paths| - 1], word);
    }
  }

  /** The call uses the reader that the suffix of its path stands for. */
  predicate ReaderAgrees(t: Token) {
    t.Read? ==> (t.reader.Parquet? <==> NamesParquet(t.path))
  }

  /** With readers counted, each call must also agree with the suffix of its path. */
  lemma RewritePreservesMeaning(q: Query)
    ensures RewrittenMeaning(q) == Meaning(q)
       <==> forall i :: 0 <= i < |q| ==> !Clashes(q, i) && ReaderAgrees(q[i])
  {
    var got, want := RewrittenMeaning(q), Meaning(q);
    forall i | 0 <= i < |q|
      ensures got[i] == want[i] <==> !Clashes(q, i) && ReaderAgrees(q[i])
    {
      MeaningAt(q, i);
      if Clashes(q, i) {
        ClashDenotesFile(Paths(q), q[i].text);
      }
    }
    if got == want {
      forall i | 0 <= i < |q|
        ensures !Clashes(q, i) && ReaderAgrees(q[i])
      {
        assert got[i] == want[i];
      }
    }
  }

  /**
   * A query keeps its meaning whose words clash with no alias, and whose read_csv_auto paths end in ".csv"
   * and read_parquet paths in ".parquet".
   */
  lemma UsualQueriesKeepMeaning(q: Query)
    requires forall i :: 0 <= i < |q| && q[i].Word? ==> !Clashes(q, i)
    requires forall i :: 0 <= i < |q| && q[i].Read? ==> EndsAsRead(q[i].reader, q[i].path)
    ensures RewrittenMeaning(q) == Meaning(q)
  {
    forall i | 0 <= i < |q| ensures !Clashes(q, i) && ReaderAgrees(q[i]) {
      if q[i].Read? {
        RegisteredIs(q[i].path);
        EndsDecide(q[i].reader, q[i].path);
      }
    }
    RewritePreservesMeaning(q);
  }

  predicate EndsAsRead(reader: Reader, p: string) {
    if reader.Parquet? then |p| >= 8 && p[|p| - 8..] == ".parquet" else |p| >= 4 && p[|p| - 4..] == ".csv"
  }

  lemma EndsDecide(reader: Reader, p: string)
    requires EndsAsRead(reader, p)
    ensures SpellsParquet(p) <==> reader.Parquet?
  {
    if reader.Parquet? {
      forall k | 0 <= k < 8 ensures p[|p| - 8 + k] == ".parquet"[k] {
        assert p[|p| - 8..][k] == ".parquet"[k];
      }
    } else {
      assert p[|p| - 1] == p[|p| - 4..][3] == 'v';
      if |p| >= 8 {
        assert p[|p| - 8 + 7] == 'v' && ".parquet"[7] == 't' && ".PARQUET"[7] == 'T';
      }
    }
  }

  /** A query with a column called t0: after the rewriting that column is the file. */
  lemma CapturedWord(q: Query, path: string)
    requires q == [Read(Parquet, path), Word("t0")]
    ensures Clashes(q, 1) && FilesOnly(RewrittenMeaning(q)) != FilesOnly(Meaning(q))
  {
    PathsStep(q, 0);
    PathsStep(q, 1);
    assert q[..0] == [] && q[..2] == q;
    assert Paths(q) == [path] && Alias(0) == "t0";
    TablesLookup(Paths(q), 0);
    assert Clashes(q, 1);
    RewritePreservesFiles(q);
  }

  /** read_csv_auto on a path that ends in ".parquet" reads the same file with the other reader. */
  lemma ReaderBySuffix(q: Query, stem: string)
    requires q == [Read(Csv, stem + ".parquet")]
    ensures FilesOnly(RewrittenMeaning(q)) == FilesOnly(Meaning(q)) && RewrittenMeaning(q) != Meaning(q)
  {
    SuffixNamesParquet(stem + ".parquet", stem);
    assert !Clashes(q, 0);
    assert !ReaderAgrees(q[0]);
    RewritePreservesFiles(q);
    RewritePreservesMeaning(q);
  }

  lemma SuffixNamesParquet(path: string, stem: string)
    requires path == stem + ".parquet"
    ensures NamesParquet(path)
  {
    assert path[|stem|..] == ".parquet";
    assert forall k :: 0 <= k < 8 ==> path[|stem| + k] == path[|stem|..][k];
  }

  // ---------------------------------------------------------------------------
  // The two loops
  // ---------------------------------------------------------------------------

  /** `aliases` maps each listed path to the alias of its position. */
  ghost predicate AliasTable(paths: seq<string>, aliases: map<string, string>) {
    && Distinct(paths)
    && aliases.Keys == Elements(paths)
    && forall j :: 0 <= j < |paths| ==> paths[j] in aliases && aliases[paths[j]] == Alias(j)
  }

  /** The substitution callback: grows the path list and the alias table on a path's first occurrence. */
  method Replace(path: string, paths: seq<string>, aliases: map<string, string>)
    returns (alias: string, paths': seq<string>, aliases': map<string, string>)
    requires AliasTable(paths, aliases)
    ensures AliasTable(paths', aliases')
    ensures paths' == (if path in paths then paths else paths + [path])
    ensures path in paths' && alias == Alias(PositionOf(paths', path))
  {
    paths', aliases' := paths, aliases;
    if path !in aliases {
      assert path !in paths;
      aliases' := aliases[path := Alias(|paths|)];
      paths' := paths + [path];
      assert paths'[|paths|] == path;
      assert Elements(paths') == Elements(paths) + {path};
    }
    assert path in paths';
    alias := aliases'[path];
  }

  /** `word` is the plain form of the token once the paths have their aliases. */
  ghost predicate NamedAs(t: Token, paths: seq<string>, word: string) {
    (t.Read? ==> t.path in paths) && word == NameOf(t, paths)
  }

  lemma NameStable(t: Token, shorter: seq<string>, longer: seq<string>, word: string)
    requires NamedAs(t, shorter, word) && shorter <= longer && Distinct(longer)
    ensures NamedAs(t, longer, word)
  {
  }

  lemma RenamedIs(q: Query, paths: seq<string>, words: seq<string>)
    requires |words| == |q| && forall i :: 0 <= i < |q| ==> NamedAs(q[i], paths, words[i])
    ensures Listed(q, paths) && words == Renamed(q, paths)
  {
  }

  function WithPath(paths: seq<string>, t: Token): seq<string> {
    if t.Read? && t.path !in paths then paths + [t.path] else paths
  }

  /** One more token: its path, if it has one, joins the paths found so far. */
  lemma PathsStep(q: Query, n: nat)
    requires n < |q|
    ensures Paths(q[..n + 1]) == WithPath(Paths(q[..n]), q[n])
  {
    assert q[..n + 1][..n] == q[..n];
  }

  method RewriteToken(t: Token, paths: seq<string>, aliases: map<string, string>)
    returns (word: string, paths': seq<string>, aliases': map<string, string>)
    requires AliasTable(paths, aliases)
    ensures AliasTable(paths', aliases') && paths' == WithPath(paths, t)
    ensures NamedAs(t, paths', word)
  {
    match t
    case Word(w) => word, paths', aliases' := w, paths, aliases;
    case Read(_, p) => word, paths', aliases' := Replace(p, paths, aliases);
  }

  /** The first n tokens are rewritten; the paths found so far have their aliases. */
  ghost predicate RewrittenTo(q: Query, n: nat, words: seq<string>, paths: seq<string>, aliases: map<string, string>)
    requires n <= |q|
  {
    && paths == Paths(q[..n]) && AliasTable(paths, aliases)
    && |words| == n && forall i :: 0 <= i < n ==> NamedAs(q[i], Paths(q), words[i])
  }

  lemma RewriteStep(q: Query, n: nat, words: seq<string>, paths: seq<string>, aliases: map<string, string>,
                    word: string, paths': seq<string>, aliases': map<string, string>)
    requires n < |q| && RewrittenTo(q, n, words, paths, aliases)
    requires AliasTable(paths', aliases') && paths' == WithPath(paths, q[n]) && NamedAs(q[n], paths', word)
    ensures RewrittenTo(q, n + 1, words + [word], paths', aliases')
  {
    PathsStep(q, n);
    PathsInOrder(q, n + 1);
    assert Distinct(Paths(q)) by {
      PathsCover(q);
    }
    NameStable(q[n], paths', Paths(q), word);
  }

  /** _rewrite_sql */
  method RewriteSql(q: Query) returns (rewritten: seq<string>, paths: seq<string>)
    ensures paths == Paths(q)
    ensures Listed(q, paths) && rewritten == Renamed(q, paths)
  {
    rewritten, paths := [], [];
    var aliases: map<string, string> := map[];
    for n := 0 to |q|
      invariant RewrittenTo(q, n, rewritten, paths, aliases)
    {
      var word, paths', aliases' := RewriteToken(q[n], paths, aliases);
      RewriteStep(q, n, rewritten, paths, aliases, word, paths', aliases');
      rewritten, paths, aliases := rewritten + [word], paths', aliases';
    }
    assert q[..|q|] == q;
    RenamedIs(q, paths, rewritten);
  }

  /** The registration loop of execute_query_sync on a blank context. */
  method RegisterTables(paths: seq<string>) returns (tables: Tables)
    ensures tables == TablesFor(paths)
  {
    tables := map[];
    for i := 0 to |paths|
      invariant tables == TablesFor(paths[..i])
    {
      assert paths[..i + 1][..i] == paths[..i];
      tables := tables[Alias(i) := Registered(paths[i])];
    }
    assert paths[..|paths|] == paths;
  }

  // ---------------------------------------------------------------------------
  // The text of an alias
  // ---------------------------------------------------------------------------

  /** The number a decimal text stands for. */
  function ValueOf(s: string): int {
    if s == [] then 0 else 10 * ValueOf(s[..|s| - 1]) + DigitValue(s[|s| - 1])
  }

  /** A digit has the value of its code above that of zero, which is 48. */
  function DigitValue(c: char): int {
    c as int - 48
  }

  ghost predicate AllDigits(s: string) {
    forall k :: 0 <= k < |s| ==> 0 <= DigitValue(s[k]) <= 9
  }

  /** An alias is a t and its position in decimal, without leading zeros. */
  lemma AliasIs(i: nat)
    ensures Alias(i)[0] == 't' && AllDigits(Alias(i)[1..]) && ValueOf(Alias(i)[1..]) == i
    ensures i > 0 ==> DigitValue(Alias(i)[1]) != 0
    ensures i == 0 ==> Alias(i) == "t0"
  {
    assert Alias(i)[1..] == Decimal(i);
    DecimalIs(i);
  }

  lemma {:induction false} DecimalIs(n: nat)
    ensures AllDigits(Decimal(n)) && ValueOf(Decimal(n)) == n
    ensures n > 0 ==> DigitValue(Decimal(n)[0]) != 0
  {
    DigitIs(n % 10);
    if n < 10 {
      assert Decimal(n)[..0] == [];
    } else {
      DecimalIs(n / 10);
      assert Decimal(n)[..|Decimal(n)| - 1] == Decimal(n / 10);
    }
  }

  lemma DigitIs(d: nat)
    requires d < 10
    ensures DigitValue(Digit(d)) == d
  {
  }
}
