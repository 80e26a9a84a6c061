/**
 * The request-independent logic of the Flask server (app/main.py): the upload
 * extension filter, the search endpoint's query builder and page arithmetic, and
 * the download path guard. Parsed argument values stand in for `request.args`,
 * and the two SQLite queries are functions from statement to result.
 */
module Server {
  import opened Wrappers
  import opened Text
  import opened Arith

  // ---------------------------------------------------------------------------
  // allowed_file (app/main.py:14, 26-27)
  // ---------------------------------------------------------------------------

  const AllowedExtensions: set<string> := {"png", "jpg", "jpeg", "gif"}

  /** The position of the last `c` in `s`, or -1 when there is none. */
  function LastIndexOf(s: string, c: char): (i: int)
    ensures -1 <= i < |s|
    ensures 0 <= i ==> s[i] == c && c !in s[i + 1..]
    ensures i == -1 ==> c !in s
    decreases |s|
  {
    if |s| == 0 then -1
    else if s[|s| - 1] == c then |s| - 1
    else
      var init := s[..|s| - 1];
      var i := LastIndexOf(init, c);
      assert c !in s[|s| - 1..];
      assert i >= 0 ==> s[i + 1..] == init[i + 1..] + s[|s| - 1..];
      assert i == -1 ==> s == init + s[|s| - 1..];
      i
  }

  /** `filename.rsplit('.', 1)[1]`: the text after the last dot. */
  function Extension(filename: string): (ext: string)
    requires '.' in filename
    ensures '.' !in ext
    ensures |ext| < |filename| && filename[|filename| - |ext| - 1] == '.'
    ensures ext == filename[|filename| - |ext|..]
  {
    filename[LastIndexOf(filename, '.') + 1..]
  }

  /** The upload filter: a dot, and a listed extension after the last dot, in any case. */
  predicate AllowedFile(filename: string) {
    '.' in filename && Lower(Extension(filename)) in AllowedExtensions
  }

  /** The dot at `i` is the last one, and the text after it, lower-cased, is a listed extension. */
  predicate ListedAfterLastDot(f: string, i: int) {
    0 <= i < |f| && f[i] == '.' && '.' !in f[i + 1..] && Lower(f[i + 1..]) in AllowedExtensions
  }

  /** `AllowedFile` holds exactly when some dot has no dot after it and the text after it, lower-cased, is listed. */
  lemma AllowedFileSpec(f: string)
    ensures AllowedFile(f) <==> exists i :: ListedAfterLastDot(f, i)
  {
    if exists i :: ListedAfterLastDot(f, i) {
      var i :| ListedAfterLastDot(f, i);
      LastDot(f, i);
    }
    if AllowedFile(f) {
      assert ListedAfterLastDot(f, LastIndexOf(f, '.'));
    }
  }

  /** A dot with no dot after it is the one `rsplit('.', 1)` splits at. */
  lemma LastDot(f: string, i: int)
    requires 0 <= i < |f| && f[i] == '.' && '.' !in f[i + 1..]
    ensures LastIndexOf(f, '.') == i
  {
    assert f[i] in f;
  }

  /** An upper-case listed extension and a bare one are accepted. */
  lemma AllowedFileAccepts()
    ensures AllowedFile("a.PNG") && AllowedFile(".gif")
  {
    LastDot("a.PNG", 1);
    assert Lower("PNG") == "png";
    LastDot(".gif", 0);
    assert Lower("gif") == "gif";
  }

  /** No dot, only the last extension counting, and an empty extension are all refused. */
  lemma AllowedFileRefuses()
    ensures !AllowedFile("png") && !AllowedFile("a.tar.gz") && !AllowedFile("a.")
  {
    assert '.' !in "png";
    LastDot("a.tar.gz", 5);
    assert Lower("gz") == "gz";
    LastDot("a.", 1);
  }

  // ---------------------------------------------------------------------------
  // Arguments of /api/software (app/main.py:49-53)
  // ---------------------------------------------------------------------------

  /** The query-string arguments, each possibly absent; integers already converted. */
  datatype Args = Args(search: Option<string>, category: Option<string>, tag: Option<string>,
                       page: Option<int>, perPage: Option<int>)

  /** The argument values the handler works with. */
  datatype Filters = Filters(search: string, category: string, tag: string, page: int, perPage: int)

  /** The filters lower-cased, with an absent filter empty, an absent page 1 and an absent page size 9. */
  function ReadArgs(args: Args): (f: Filters)
    ensures forall i :: 0 <= i < |f.search| ==> !IsUpper(f.search[i])
    ensures forall i :: 0 <= i < |f.category| ==> !IsUpper(f.category[i])
    ensures forall i :: 0 <= i < |f.tag| ==> !IsUpper(f.tag[i])
    ensures f.search == Lower(args.search.GetOr(""))
    ensures f.category == Lower(args.category.GetOr(""))
    ensures f.tag == Lower(args.tag.GetOr(""))
    ensures args.search.None? ==> f.search == ""
    ensures args.category.None? ==> f.category == ""
    ensures args.tag.None? ==> f.tag == ""
    ensures f.page == (if args.page.Some? then args.page.value else 1)
    ensures f.perPage == (if args.perPage.Some? then args.perPage.value else 9)
  {
    Filters(Lower(args.search.GetOr("")), Lower(args.category.GetOr("")), Lower(args.tag.GetOr("")),
            args.page.GetOr(1), args.perPage.GetOr(9))
  }

  // ---------------------------------------------------------------------------
  // The SQL statements (app/main.py:56-74)
  // ---------------------------------------------------------------------------

  /** The fragments the handler concatenates into its SQL text. */
  datatype Clause = SelectAll | NameLike | CategoryEq | TagLike | LimitOffset

  datatype Param = Str(s: string) | Num(n: int)

  /**
   * A statement and its bound parameters: the rows of a fragment sequence, or the
   * count of those rows (`SELECT COUNT(*) FROM (<query>)`).
   */
  datatype Statement =
    | Rows(clauses: seq<Clause>, params: seq<Param>)
    | CountOf(clauses: seq<Clause>, params: seq<Param>)

  /** Every fragment after the first starts with a space, so appending never fuses two tokens. */
  function ClauseSql(c: Clause): (sql: string)
    ensures |sql| > 0
    ensures c != SelectAll ==> sql[0] == ' '
  {
    match c
    case SelectAll => "SELECT * FROM software WHERE 1=1"
    case NameLike => " AND LOWER(name) LIKE ?"
    case CategoryEq => " AND LOWER(category) = ?"
    case TagLike => " AND LOWER(tag) LIKE ?"
    case LimitOffset => " LIMIT ? OFFSET ?"
  }

  /** The SQL text of a fragment sequence, built by appending as `query +=` does. */
  function Sql(cs: seq<Clause>): (sql: string)
    ensures sql == "" <==> |cs| == 0
    ensures |cs| > 0 && cs[0] == SelectAll ==> StartsWith(sql, ClauseSql(SelectAll))
    decreases |cs|
  {
    if |cs| == 0 then "" else Sql(cs[..|cs| - 1]) + ClauseSql(cs[|cs| - 1])
  }

  /** The SQL text of a statement. */
  function StatementSql(st: Statement): (sql: string)
    ensures st.CountOf? ==> StartsWith(sql, "SELECT COUNT(*) FROM (") && sql[|sql| - 1] == ')'
    ensures st.Rows? && |st.clauses| > 0 && st.clauses[0] == SelectAll ==>
              StartsWith(sql, "SELECT * FROM software WHERE 1=1")
  {
    match st
    case Rows(cs, _) => Sql(cs)
    case CountOf(cs, _) => "SELECT COUNT(*) FROM (" + Sql(cs) + ")"
  }

  /** The number of `?` placeholders in SQL text. */
  function Placeholders(s: string): nat
    decreases |s|
  {
    if |s| == 0 then 0 else Placeholders(s[..|s| - 1]) + (if s[|s| - 1] == '?' then 1 else 0)
  }

  /** At most one placeholder per character, and none exactly when there is no `?`. */
  lemma {:induction false} PlaceholdersBounds(s: string)
    ensures Placeholders(s) <= |s|
    ensures Placeholders(s) == 0 <==> '?' !in s
    decreases |s|
  {
    if |s| > 0 {
      PlaceholdersBounds(s[..|s| - 1]);
      assert s == s[..|s| - 1] + [s[|s| - 1]];
    }
  }

  /** The position of a filter clause in the fixed order search, category, tag. */
  function Rank(c: Clause): nat {
    match c
    case SelectAll => 0
    case NameLike => 1
    case CategoryEq => 2
    case TagLike => 3
    case LimitOffset => 4
  }

  predicate IsFilter(c: Clause) {
    1 <= Rank(c) <= 3
  }

  /** The parameter a filter clause binds: a substring pattern for name and tag, the exact value for category. */
  function FilterParam(c: Clause, f: Filters): Param {
    match c
    case NameLike => Str("%" + f.search + "%")
    case CategoryEq => Str(f.category)
    case TagLike => Str("%" + f.tag + "%")
    case _ => Str("")
  }

  /** The filter clauses the handler appends, one per non-empty filter. */
  function FilterClauses(f: Filters): seq<Clause> {
    (if f.search != "" then [NameLike] else []) +
    (if f.category != "" then [CategoryEq] else []) +
    (if f.tag != "" then [TagLike] else [])
  }

  /** The parameters a run of filter clauses binds, one per clause, in the same order. */
  function ParamsOf(cs: seq<Clause>, f: Filters): seq<Param> {
    seq(|cs|, k requires 0 <= k < |cs| => FilterParam(cs[k], f))
  }

  lemma ParamsOfConcat(a: seq<Clause>, b: seq<Clause>, f: Filters)
    ensures ParamsOf(a + b, f) == ParamsOf(a, f) + ParamsOf(b, f)
  {
    assert forall k :: 0 <= k < |a + b| ==> ParamsOf(a + b, f)[k] == (ParamsOf(a, f) + ParamsOf(b, f))[k];
  }

  /** The parameters the filter clauses bind, in the same order. */
  function FilterParams(f: Filters): seq<Param> {
    ParamsOf(FilterClauses(f), f)
  }

  /**
   * A filter clause is present exactly when its filter is non-empty, the clauses keep
   * the order search, category, tag, and the k-th parameter is the k-th clause's.
   */
  lemma FilterClausesSpec(f: Filters)
    ensures var cs := FilterClauses(f);
            && (forall k :: 0 <= k < |cs| ==> IsFilter(cs[k]))
            && (NameLike in cs <==> f.search != "")
            && (CategoryEq in cs <==> f.category != "")
            && (TagLike in cs <==> f.tag != "")
            && (forall i, j :: 0 <= i < j < |cs| ==> Rank(cs[i]) < Rank(cs[j]))
    ensures |FilterParams(f)| == |FilterClauses(f)|
    ensures forall k :: 0 <= k < |FilterClauses(f)| ==> FilterParams(f)[k] == FilterParam(FilterClauses(f)[k], f)
  {
  }

  /** `(page - 1) * per_page`. */
  function Offset(page: int, perPage: int): (o: int)
    ensures page >= 1 && perPage > 0 ==> o >= 0 && o % perPage == 0
    ensures perPage == 0 ==> o == 0
  {
    var o := (page - 1) * perPage;
    if page >= 1 && perPage > 0 then
      MultipleOf(page - 1, perPage);
      o
    else if perPage == 0 then
      assert o == (page - 1) * 0;
      o
    else o
  }

  lemma MultipleOf(k: nat, n: int)
    requires n > 0
    ensures k * n >= 0 && (k * n) % n == 0
  {
    var a := k * n;
    var q, r := a / n, a % n;
    assert a == q * n + r;
    assert r == (k - q) * n;
    ProductBounds(k - q, n);
  }

  lemma {:induction false} PlaceholdersConcat(a: string, b: string)
    ensures Placeholders(a + b) == Placeholders(a) + Placeholders(b)
    decreases |b|
  {
    if |b| > 0 {
      var ab := a + b;
      assert ab[..|ab| - 1] == a + b[..|b| - 1];
      PlaceholdersConcat(a, b[..|b| - 1]);
    } else {
      assert a + b == a;
    }
  }

  lemma {:induction false} NoPlaceholders(s: string)
    requires '?' !in s
    ensures Placeholders(s) == 0
    decreases |s|
  {
    if |s| > 0 {
      assert s[|s| - 1] in s;
      assert forall c :: c in s[..|s| - 1] ==> c in s;
      NoPlaceholders(s[..|s| - 1]);
    }
  }

  /** The number of placeholders each fragment holds. */
  function Arity(c: Clause): nat {
    match c
    case NameLike => 1
    case CategoryEq => 1
    case TagLike => 1
    case LimitOffset => 2
    case _ => 0
  }

  lemma OneHole(prefix: string)
    requires '?' !in prefix
    ensures Placeholders(prefix + "?") == 1
  {
    NoPlaceholders(prefix);
    PlaceholdersConcat(prefix, "?");
  }

  lemma LimitOffsetPlaceholders()
    ensures Placeholders(" LIMIT ? OFFSET ?") == 2
  {
    assert " LIMIT ? OFFSET ?" == (" LIMIT " + "?") + (" OFFSET " + "?");
    OneHole(" LIMIT ");
    OneHole(" OFFSET ");
    PlaceholdersConcat(" LIMIT " + "?", " OFFSET " + "?");
  }

  /** The text of each fragment holds exactly its arity in placeholders. */
  lemma ClausePlaceholders(c: Clause)
    ensures Placeholders(ClauseSql(c)) == Arity(c)
  {
    match c
    case NameLike =>
      assert ClauseSql(c) == " AND LOWER(name) LIKE " + "?";
      OneHole(" AND LOWER(name) LIKE ");
    case CategoryEq =>
      assert ClauseSql(c) == " AND LOWER(category) = " + "?";
      OneHole(" AND LOWER(category) = ");
    case TagLike =>
      assert ClauseSql(c) == " AND LOWER(tag) LIKE " + "?";
      OneHole(" AND LOWER(tag) LIKE ");
    case LimitOffset =>
      LimitOffsetPlaceholders();
    case SelectAll =>
      NoPlaceholders(ClauseSql(c));
  }

  /** The placeholders of a fragment sequence are the sum of the fragments' arities. */
  function TotalArity(cs: seq<Clause>): nat
    decreases |cs|
  {
    if |cs| == 0 then 0 else TotalArity(cs[..|cs| - 1]) + Arity(cs[|cs| - 1])
  }

  lemma {:induction false} SqlPlaceholders(cs: seq<Clause>)
    ensures Placeholders(Sql(cs)) == TotalArity(cs)
    decreases |cs|
  {
    if |cs| > 0 {
      SqlPlaceholders(cs[..|cs| - 1]);
      PlaceholdersConcat(Sql(cs[..|cs| - 1]), ClauseSql(cs[|cs| - 1]));
      ClausePlaceholders(cs[|cs| - 1]);
    }
  }

  /** Every statement the handler runs has as many placeholders as parameters. */
  ghost predicate Balanced(st: Statement) {
    Placeholders(StatementSql(st)) == |st.params|
  }

  /** The text around a counted query holds no placeholder. */
  lemma CountWrapperFree()
    ensures Placeholders("SELECT COUNT(*) FROM (") == 0 && Placeholders(")") == 0
  {
    NoPlaceholders("SELECT COUNT(*) FROM (");
    NoPlaceholders(")");
  }

  lemma CountOfBalanced(cs: seq<Clause>, params: seq<Param>)
    requires Balanced(Rows(cs, params))
    ensures Balanced(CountOf(cs, params))
  {
    CountWrapperFree();
    PlaceholdersConcat("SELECT COUNT(*) FROM (", Sql(cs));
    PlaceholdersConcat("SELECT COUNT(*) FROM (" + Sql(cs), ")");
  }

  /**
   * The handler's two statements: the count query over the filtered selection, and
   * the page query, the same selection followed by `LIMIT ? OFFSET ?` bound to the
   * page size and the offset. Both have as many placeholders as parameters.
   */
  method BuildQuery(f: Filters) returns (count: Statement, select: Statement)
    ensures select == Rows([SelectAll] + FilterClauses(f) + [LimitOffset],
                           FilterParams(f) + [Num(f.perPage), Num(Offset(f.page, f.perPage))])
    ensures count == CountOf([SelectAll] + FilterClauses(f), FilterParams(f))
    ensures Balanced(count) && Balanced(select)
  {
    ghost var c1: seq<Clause>, c2: seq<Clause>, c3: seq<Clause> := [], [], [];
    var query := [SelectAll];
    var params: seq<Param> := [];

    if f.search != "" {
      query := query + [NameLike];
      params := params + [FilterParam(NameLike, f)];
      c1 := [NameLike];
    }
    assert params == ParamsOf(c1, f);
    if f.category != "" {
      query := query + [CategoryEq];
      params := params + [FilterParam(CategoryEq, f)];
      c2 := [CategoryEq];
    }
    assert query == [SelectAll] + c1 + c2;
    assert params == ParamsOf(c1, f) + ParamsOf(c2, f);
    if f.tag != "" {
      query := query + [TagLike];
      params := params + [FilterParam(TagLike, f)];
      c3 := [TagLike];
    }
    assert query == [SelectAll] + (c1 + c2 + c3);
    assert FilterClauses(f) == c1 + c2 + c3;
    assert params == ParamsOf(c1, f) + ParamsOf(c2, f) + ParamsOf(c3, f);
    ParamsOfConcat(c1, c2, f);
    ParamsOfConcat(c1 + c2, c3, f);
    count := CountOf(query, params);

    var offset := Offset(f.page, f.perPage);
    query := query + [LimitOffset];
    params := params + [Num(f.perPage), Num(offset)];
    select := Rows(query, params);
    assert count == CountOf([SelectAll] + FilterClauses(f), FilterParams(f));
    assert select == Rows([SelectAll] + FilterClauses(f) + [LimitOffset],
                          FilterParams(f) + [Num(f.perPage), Num(Offset(f.page, f.perPage))]);
    FilterStatementsBalanced(f);
  }

  /** Both statements built from a set of filters have as many placeholders as parameters. */
  lemma FilterStatementsBalanced(f: Filters)
    ensures Balanced(CountOf([SelectAll] + FilterClauses(f), FilterParams(f)))
    ensures Balanced(Rows([SelectAll] + FilterClauses(f) + [LimitOffset],
                          FilterParams(f) + [Num(f.perPage), Num(Offset(f.page, f.perPage))]))
  {
    var cs := [SelectAll] + FilterClauses(f);
    FilterArity(f);
    SqlPlaceholders(cs);
    CountOfBalanced(cs, FilterParams(f));
    SqlPlaceholders(cs + [LimitOffset]);
    assert (cs + [LimitOffset])[..|cs|] == cs;
  }

  /** The arity of a concatenation is the sum of the arities. */
  lemma {:induction false} TotalArityConcat(a: seq<Clause>, b: seq<Clause>)
    ensures TotalArity(a + b) == TotalArity(a) + TotalArity(b)
    decreases |b|
  {
    if |b| == 0 {
      assert a + b == a;
    } else {
      assert (a + b)[..|a + b| - 1] == a + b[..|b| - 1];
      TotalArityConcat(a, b[..|b| - 1]);
    }
  }

  /** The arity of a sequence of at most one filter clause is its length. */
  lemma OptionalFilterArity(present: bool, c: Clause)
    requires IsFilter(c)
    ensures TotalArity(if present then [c] else []) == |if present then [c] else []|
  {
    if present {
      assert [c][..0] == [];
    }
  }

  /** The selection followed by three runs of clauses, each with one placeholder per clause. */
  lemma SelectionArity(a: seq<Clause>, b: seq<Clause>, c: seq<Clause>)
    requires TotalArity(a) == |a| && TotalArity(b) == |b| && TotalArity(c) == |c|
    ensures TotalArity([SelectAll] + (a + b + c)) == |a| + |b| + |c|
  {
    TotalArityConcat(a + b, c);
    TotalArityConcat(a, b);
    TotalArityConcat([SelectAll], a + b + c);
    assert [SelectAll][..0] == [];
  }

  /** The selection's placeholders match the filter parameters. */
  lemma FilterArity(f: Filters)
    ensures TotalArity([SelectAll] + FilterClauses(f)) == |FilterParams(f)|
  {
    var a := if f.search != "" then [NameLike] else [];
    var b := if f.category != "" then [CategoryEq] else [];
    var c := if f.tag != "" then [TagLike] else [];
    OptionalFilterArity(f.search != "", NameLike);
    OptionalFilterArity(f.category != "", CategoryEq);
    OptionalFilterArity(f.tag != "", TagLike);
    assert FilterClauses(f) == a + b + c;
    assert |FilterParams(f)| == |a| + |b| + |c|;
    SelectionArity(a, b, c);
  }

  // ---------------------------------------------------------------------------
  // Page count and response (app/main.py:75-87)
  // ---------------------------------------------------------------------------

  /** Python's `a // b`: the quotient rounded toward negative infinity. */
  function FloorDiv(a: int, b: int): (q: int)
    requires b != 0
    ensures b > 0 ==> b * q <= a < b * q + b
    ensures b < 0 ==> b * q >= a > b * q + b
  {
    if b > 0 then a / b else (-a) / (-b)
  }

  /** `max(1, (total + per_page - 1) // per_page)`. */
  function TotalPages(total: int, perPage: int): (pages: int)
    requires perPage != 0
    ensures pages >= 1
  {
    var q := FloorDiv(total + perPage - 1, perPage);
    if q < 1 then 1 else q
  }

  /** At least one page, enough pages for every row, and no page beyond the last row. */
  lemma TotalPagesBounds(total: int, perPage: int)
    requires perPage > 0 && total >= 0
    ensures TotalPages(total, perPage) >= 1
    ensures TotalPages(total, perPage) * perPage >= total
    ensures total > 0 ==> (TotalPages(total, perPage) - 1) * perPage < total
    ensures total == 0 ==> TotalPages(total, perPage) == 1
  {
    var q := FloorDiv(total + perPage - 1, perPage);
    assert perPage * q >= total && perPage * q < total + perPage;
    ProductBounds(q, perPage);
    assert (q - 1) * perPage == q * perPage - perPage;
  }

  /** A result row, as `dict(row)`. */
  type Row = map<string, string>

  datatype Response = Response(page: int, perPage: int, total: int, pages: int, items: seq<Row>)

  /**
   * The sqlite3 driver refuses to bind an integer outside 64 bits (OverflowError), and
   * `total_pages` divides by `per_page`, so a page size of 0 raises ZeroDivisionError.
   */
  datatype ApiError = OverflowError | ZeroDivisionError

  /** An integer sqlite can store: a signed 64-bit value. */
  predicate FitsInt64(n: int) {
    -0x8000_0000_0000_0000 <= n < 0x8000_0000_0000_0000
  }

  /**
   * The /api/software handler: builds both statements, asks `countRows` and `fetchRows`
   * (the two `conn.execute` calls) for their results, and answers with the requested
   * page and page size unchanged, the count, the page count and the rows. Binding a page
   * size or an offset beyond 64 bits to the page query fails first; a page size of 0 fails
   * when the page count is computed.
   */
  method ApiSoftware(args: Args, countRows: Statement -> nat, fetchRows: Statement -> seq<Row>)
    returns (count: Statement, select: Statement, r: Result<Response, ApiError>)
    ensures var f := ReadArgs(args);
            r == Failure(OverflowError) <==> !FitsInt64(f.perPage) || !FitsInt64(Offset(f.page, f.perPage))
    ensures var f := ReadArgs(args);
            r == Failure(ZeroDivisionError) <==> f.perPage == 0
    ensures var f := ReadArgs(args);
            && (r.Failure? <==> f.perPage == 0 || !FitsInt64(f.perPage) || !FitsInt64(Offset(f.page, f.perPage)))
            && (r.Success? ==> r.value == Response(f.page, f.perPage, countRows(count),
                                                   TotalPages(countRows(count), f.perPage), fetchRows(select)))
            && |select.params| >= 2
            && select.params[|select.params| - 2..] == [Num(f.perPage), Num(Offset(f.page, f.perPage))]
            && count.params == select.params[..|select.params| - 2]
    ensures count.CountOf? && select.Rows? && Balanced(count) && Balanced(select)
    ensures select.clauses == count.clauses + [LimitOffset]
    ensures count == CountOf([SelectAll] + FilterClauses(ReadArgs(args)), FilterParams(ReadArgs(args)))
    ensures select == Rows([SelectAll] + FilterClauses(ReadArgs(args)) + [LimitOffset],
                           FilterParams(ReadArgs(args)) + [Num(ReadArgs(args).perPage),
                                                           Num(Offset(ReadArgs(args).page, ReadArgs(args).perPage))])
  {
    var f := ReadArgs(args);
    count, select := BuildQuery(f);
    var total := countRows(count);
    var offset := Offset(f.page, f.perPage);
    if !FitsInt64(f.perPage) || !FitsInt64(offset) {
      r := Failure(OverflowError);
    } else if f.perPage == 0 {
      r := Failure(ZeroDivisionError);
    } else {
      var rows := fetchRows(select);
      r := Success(Response(f.page, f.perPage, total, TotalPages(total, f.perPage), rows));
    }
  }

  // ---------------------------------------------------------------------------
  // Download guard (app/main.py:93-103)
  // ---------------------------------------------------------------------------

  const RepoBase := "/mnt/repo"

  /** `os.path.join(a, b)` for two parts: an absolute `b` replaces `a`, otherwise one `/` between them. */
  function JoinPath(a: string, b: string): (p: string)
    ensures |b| <= |p| && p[|p| - |b|..] == b
    ensures IsAbsolute(b) ==> p == b
  {
    if |b| > 0 && b[0] == '/' then b
    else if |a| == 0 || a[|a| - 1] == '/' then a + b
    else a + "/" + b
  }

  predicate IsAbsolute(p: string) {
    |p| > 0 && p[0] == '/'
  }

  datatype DownloadOutcome = Forbidden | NotFound | SendFile(directory: string, path: string)

  /**
   * The download handler as written: `safePath` is the already normalised file name,
   * `pathExists` the file system test (`os.path.exists`). It refuses with 403 when the joined path does not
   * start with the base directory's text, with 404 when no such file exists.
   */
  function DownloadAsWritten(safePath: string, pathExists: string -> bool): (r: DownloadOutcome)
    ensures r.Forbidden? <==> !StartsWith(JoinPath(RepoBase, safePath), RepoBase)
    ensures r.NotFound? <==> StartsWith(JoinPath(RepoBase, safePath), RepoBase) && !pathExists(JoinPath(RepoBase, safePath))
    ensures r.SendFile? ==> r == SendFile(RepoBase, safePath)
  {
    var fullPath := JoinPath(RepoBase, safePath);
    if !StartsWith(fullPath, RepoBase) then Forbidden
    else if !pathExists(fullPath) then NotFound
    else SendFile(RepoBase, safePath)
  }

  /** `p` names the base directory or something below it, with no `..` component climbing out. */
  ghost predicate Within(base: string, p: string) {
    StartsWith(p, base + "/") &&
    var parts := Split(p[|base| + 1..], '/');
    forall k :: 0 <= k < |parts| ==> parts[k] != ".."
  }

  /** The guard as written never refuses a relative name, whatever `..` components it has. */
  lemma DownloadAsWrittenAdmitsRelative(safePath: string, pathExists: string -> bool)
    requires !IsAbsolute(safePath)
    ensures !DownloadAsWritten(safePath, pathExists).Forbidden?
  {
    assert JoinPath(RepoBase, safePath) == RepoBase + "/" + safePath;
    assert (RepoBase + "/" + safePath)[..|RepoBase|] == RepoBase;
  }

  /** A relative name joined to the base sits below it, and what follows the base is the name. */
  lemma JoinRelative(safePath: string)
    requires !IsAbsolute(safePath)
    ensures StartsWith(JoinPath(RepoBase, safePath), RepoBase + "/")
    ensures JoinPath(RepoBase, safePath)[|RepoBase| + 1..] == safePath
  {
    var full := JoinPath(RepoBase, safePath);
    assert full == RepoBase + "/" + safePath;
    assert full[..|RepoBase| + 1] == RepoBase + "/";
  }

  /** A name climbing out with `..` passes the guard as written but leaves the base directory. */
  lemma DownloadAsWrittenEscapesUp(pathExists: string -> bool)
    ensures !DownloadAsWritten("../etc/passwd", pathExists).Forbidden?
    ensures !Within(RepoBase, JoinPath(RepoBase, "../etc/passwd"))
  {
    var name := "../etc/passwd";
    assert !IsAbsolute(name) by { assert name[0] == '.'; }
    DownloadAsWrittenAdmitsRelative(name, pathExists);
    assert name[2] == '/' && name[..2] == "..";
    FirstComponent(name, 2, '/');
    ClimbingOut(name);
  }

  /** A relative name whose first component is `..` does not stay within the base. */
  lemma ClimbingOut(name: string)
    requires !IsAbsolute(name) && Split(name, '/')[0] == ".."
    ensures !Within(RepoBase, JoinPath(RepoBase, name))
  {
    JoinRelative(name);
  }

  /** An absolute name sharing the base's text as a prefix passes the guard as written but is elsewhere. */
  lemma DownloadAsWrittenEscapesSibling(pathExists: string -> bool)
    ensures !DownloadAsWritten("/mnt/repository/secret", pathExists).Forbidden?
    ensures !Within(RepoBase, JoinPath(RepoBase, "/mnt/repository/secret"))
  {
    var other := "/mnt/repository/secret";
    assert JoinPath(RepoBase, other) == other;
    assert other[..|RepoBase|] == RepoBase;
    assert other[..|RepoBase| + 1] != RepoBase + "/" by {
      assert other[..|RepoBase| + 1][|RepoBase|] == 's';
    }
  }

  /** The first piece of a split ends at the first separator. */
  lemma FirstComponent(s: string, k: nat, sep: char)
    requires k < |s| && s[k] == sep && sep !in s[..k]
    ensures Split(s, sep)[0] == s[..k]
  {
    assert s == s[..k] + [sep] + s[k + 1..];
    SplitAtSeparator(s[..k], s[k + 1..], sep);
  }

  /** Splitting `a/b` when `a` has no separator gives `a` first. */
  lemma SplitAtSeparator(a: string, b: string, sep: char)
    requires sep !in a
    ensures Split(a + [sep] + b, sep)[0] == a
    decreases |a|
  {
    if |a| > 0 {
      assert (a + [sep] + b)[1..] == a[1..] + [sep] + b;
      assert forall c :: c in a[1..] ==> c in a;
      SplitAtSeparator(a[1..], b, sep);
      assert [a[0]] + a[1..] == a;
    }
  }

  /**
   * The shape of `os.path.normpath`'s result for a relative name: `.`, or non-empty
   * components other than `.`, with `..` components only at the front.
   */
  ghost predicate NormalRelative(p: string) {
    p == "." ||
    (p != "" && !IsAbsolute(p) &&
     var parts := Split(p, '/');
     && (forall k :: 0 <= k < |parts| ==> parts[k] != "" && parts[k] != ".")
     && (forall i, j :: 0 <= i < j < |parts| && parts[j] == ".." ==> parts[i] == ".."))
  }

  /** The guard as intended: a relative name whose first component does not climb out. */
  predicate Contained(safePath: string) {
    !IsAbsolute(safePath) && Split(safePath, '/')[0] != ".."
  }

  /** The download handler with the corrected guard. */
  function Download(safePath: string, pathExists: string -> bool): DownloadOutcome {
    var fullPath := JoinPath(RepoBase, safePath);
    if !Contained(safePath) then Forbidden
    else if !pathExists(fullPath) then NotFound
    else SendFile(RepoBase, safePath)
  }

  /**
   * With the corrected guard an absolute name is refused, and a normalised relative
   * name is refused exactly when it would leave the base directory.
   */
  lemma DownloadContainedSpec(safePath: string, pathExists: string -> bool)
    ensures IsAbsolute(safePath) ==> Download(safePath, pathExists).Forbidden?
    ensures NormalRelative(safePath) ==>
              (!Download(safePath, pathExists).Forbidden? <==> Within(RepoBase, JoinPath(RepoBase, safePath)))
  {
    if NormalRelative(safePath) {
      JoinRelative(safePath);
      if safePath == "." {
        assert Split("", '/') == [""];
        var rest := Split("."[1..], '/');
        assert "."[1..] == "" && rest == [""];
        assert ['.'] + rest[0] == "." && rest[1..] == [];
        assert Split(".", '/') == [['.'] + rest[0]] + rest[1..];
      }
    }
  }
}
