/** The ISBN batch job (isbn_batch.py): it collects book names and ISBNs from
    the paged book list, page by page with retries, and then corrects the
    ISBN column of the spreadsheet. The browser, the network, the progress
    file and the spreadsheet are replaced by their observable results: the
    outcome of every page load is a parameter, and the saves and cell writes
    are returned. */
module IsbnBatch {
  import opened Wrappers
  import opened Text

  /** Attempts per page (`max_retries`). */
  const MaxAttempts: nat := 3

  /** Progress is saved inside the loop on pages divisible by this. */
  const SaveEvery := 5

  /** The texts of one table row's cells. */
  type Row = seq<string>

  datatype Book = Book(name: string, isbn: string)

  /** One page load: the rows of the table, or an exception. */
  datatype Attempt = Loaded(rows: seq<Row>) | Failed

  /** `'{{' in s`: an unrendered template placeholder. */
  predicate HasTemplateMarker(s: string) {
    exists i | 0 <= i < |s| - 1 :: s[i] == '{' && s[i + 1] == '{'
  }

  /** A row yields a book when it has at least four cells and its stripped
      first and fourth cells are non-empty and free of template markers. */
  predicate AcceptRow(row: Row) {
    && |row| >= 4
    && Trim(row[0]) != [] && Trim(row[3]) != []
    && !HasTemplateMarker(Trim(row[0])) && !HasTemplateMarker(Trim(row[3]))
  }

  predicate CleanBook(b: Book) {
    b.name != [] && b.isbn != [] && !HasTemplateMarker(b.name) && !HasTemplateMarker(b.isbn)
  }

  /** The book one row yields: its stripped first and fourth cells, when the
      row is accepted. */
  function RowBook(row: Row): (r: Option<Book>)
    ensures r.Some? <==> AcceptRow(row)
    ensures r.Some? ==> r.value == Book(Trim(row[0]), Trim(row[3])) && CleanBook(r.value)
  {
    if AcceptRow(row) then Some(Book(Trim(row[0]), Trim(row[3]))) else None
  }

  /** The books of one loaded page, in row order. */
  function PageBooks(rows: seq<Row>): (r: seq<Book>)
    ensures |r| <= |rows|
  {
    if rows == [] then []
    else
      var rest := PageBooks(rows[1..]);
      match RowBook(rows[0])
      case Some(b) => [b] + rest
      case None => rest
  }

  /** Every book of a page is the book of one of its rows. */
  lemma {:induction false} PageBooksFromRows(rows: seq<Row>)
    ensures forall b :: b in PageBooks(rows) ==> exists i :: 0 <= i < |rows| && RowBook(rows[i]) == Some(b)
    decreases |rows|
  {
    if rows != [] {
      PageBooksFromRows(rows[1..]);
      forall b | b in PageBooks(rows[1..])
        ensures exists i :: 0 <= i < |rows| && RowBook(rows[i]) == Some(b)
      {
        var j :| 0 <= j < |rows[1..]| && RowBook(rows[1..][j]) == Some(b);
        assert rows[j + 1] == rows[1..][j];
      }
    }
  }

  /** Every book a page yields has a name and an ISBN, neither holding a
      template marker. */
  lemma {:induction false} PageBooksClean(rows: seq<Row>)
    ensures AllClean(PageBooks(rows))
    decreases |rows|
  {
    if rows != [] {
      PageBooksClean(rows[1..]);
    }
  }

  /** A row's book comes out in place: the books of a page are the books of
      its first part followed by the books of the rest. */
  lemma {:induction false} PageBooksAppend(a: seq<Row>, b: seq<Row>)
    ensures PageBooks(a + b) == PageBooks(a) + PageBooks(b)
    decreases |a|
  {
    if a != [] {
      assert (a + b)[0] == a[0];
      assert (a + b)[1..] == a[1..] + b;
      PageBooksAppend(a[1..], b);
    } else {
      assert a + b == b;
    }
  }

  /** A single row contributes its stripped name and ISBN exactly when it is
      accepted. */
  lemma SingleRow(row: Row)
    ensures PageBooks([row]) == (if AcceptRow(row) then [Book(Trim(row[0]), Trim(row[3]))] else [])
  {
    assert [row][1..] == [];
  }

  /** The rows of the first successful attempt from attempt `k` on, or
      `None` when every remaining attempt fails. */
  function FirstLoaded(page: int, fetch: (int, nat) -> Attempt, k: nat): Option<seq<Row>>
    decreases MaxAttempts - k
  {
    if k >= MaxAttempts then None
    else if fetch(page, k).Loaded? then Some(fetch(page, k).rows)
    else FirstLoaded(page, fetch, k + 1)
  }

  /** How many attempts a page takes: up to and including the first success. */
  function AttemptsUsed(page: int, fetch: (int, nat) -> Attempt, k: nat): (n: nat)
    requires k <= MaxAttempts
    ensures k <= n <= MaxAttempts
    ensures k < MaxAttempts ==> k < n
    ensures n < MaxAttempts ==> fetch(page, n - 1).Loaded?
    decreases MaxAttempts - k
  {
    if k == MaxAttempts || fetch(page, k).Loaded? then (if k == MaxAttempts then k else k + 1)
    else AttemptsUsed(page, fetch, k + 1)
  }

  /** What a page contributes: the books of its first successful load, or
      nothing when all attempts fail. */
  function PageResult(page: int, fetch: (int, nat) -> Attempt): seq<Book> {
    match FirstLoaded(page, fetch, 0)
    case Some(rows) => PageBooks(rows)
    case None => []
  }

  /** The books of pages `from` to `to - 1`, in page order. */
  function Collected(from: int, to: int, fetch: (int, nat) -> Attempt): seq<Book>
    decreases if to <= from then 0 else to - from
  {
    if to <= from then [] else Collected(from, to - 1, fetch) + PageResult(to - 1, fetch)
  }

  /** A save inside the loop: the page it happened on and how many books
      the progress file then held. */
  datatype Snapshot = Snapshot(page: int, count: nat)

  /** The saves made while pages `from` to `to - 1` are fetched: one after
      each successfully loaded page divisible by five, holding every book
      collected so far. */
  function SavePoints(progress: seq<Book>, from: int, to: int, fetch: (int, nat) -> Attempt): seq<Snapshot>
    decreases if to <= from then 0 else to - from
  {
    if to <= from then []
    else
      var p := to - 1;
      SavePoints(progress, from, p, fetch)
        + (if FirstLoaded(p, fetch, 0).Some? && p % SaveEvery == 0
           then [Snapshot(p, |progress| + |Collected(from, to, fetch)|)] else [])
  }

  /** The number of attempts each of pages `from` to `to - 1` takes. */
  function AttemptCounts(from: int, to: int, fetch: (int, nat) -> Attempt): seq<nat>
    decreases if to <= from then 0 else to - from
  {
    if to <= from then [] else AttemptCounts(from, to - 1, fetch) + [AttemptsUsed(to - 1, fetch, 0)]
  }

  /** Page `to - 1` adds its books at the end. */
  lemma {:induction false} BooksStep(from: int, to: int, fetch: (int, nat) -> Attempt)
    requires from < to
    ensures Collected(from, to, fetch) == Collected(from, to - 1, fetch) + PageResult(to - 1, fetch)
  {
  }

  /** Page `to - 1` adds its save, if any, at the end. */
  lemma {:induction false} SavesStep(progress: seq<Book>, from: int, to: int, fetch: (int, nat) -> Attempt)
    requires from < to
    ensures SavePoints(progress, from, to, fetch) == SavePoints(progress, from, to - 1, fetch)
      + (if FirstLoaded(to - 1, fetch, 0).Some? && (to - 1) % SaveEvery == 0
         then [Snapshot(to - 1, |progress| + |Collected(from, to, fetch)|)] else [])
  {
  }

  /** Page `to - 1` adds its attempt count at the end. */
  lemma {:induction false} TriesStep(from: int, to: int, fetch: (int, nat) -> Attempt)
    requires from < to
    ensures AttemptCounts(from, to, fetch) == AttemptCounts(from, to - 1, fetch) + [AttemptsUsed(to - 1, fetch, 0)]
  {
  }

  /** The retry loop of one page. */
  method FetchPage(page: int, fetch: (int, nat) -> Attempt) returns (rows: Option<seq<Row>>, tries: nat)
    ensures rows == FirstLoaded(page, fetch, 0)
    ensures tries == AttemptsUsed(page, fetch, 0)
    ensures 1 <= tries <= MaxAttempts
    ensures rows.None? <==> forall k :: 0 <= k < MaxAttempts ==> fetch(page, k).Failed?
  {
    tries := 0;
    rows := None;
    while tries < MaxAttempts
      invariant tries <= MaxAttempts
      invariant forall k :: 0 <= k < tries ==> fetch(page, k).Failed?
      invariant FirstLoaded(page, fetch, 0) == FirstLoaded(page, fetch, tries)
      invariant AttemptsUsed(page, fetch, 0) == AttemptsUsed(page, fetch, tries)
    {
      var outcome := fetch(page, tries);
      if outcome.Loaded? {
        rows := Some(outcome.rows);
        tries := tries + 1;
        return;
      }
      tries := tries + 1;
    }
  }

  /** What the page loop has produced once pages `from` to `page - 1` are done. */
  predicate LoopState(progress: seq<Book>, from: int, page: int, fetch: (int, nat) -> Attempt,
                      books: seq<Book>, saves: seq<Snapshot>, tries: seq<nat>) {
    && books == progress + Collected(from, page, fetch)
    && saves == SavePoints(progress, from, page, fetch)
    && tries == AttemptCounts(from, page, fetch)
    && (forall i :: 0 <= i < |tries| ==> 1 <= tries[i] <= MaxAttempts)
  }

  /** One iteration of the page loop: load the page with retries, keep its
      accepted rows, and save the progress on a page divisible by five. */
  method VisitPage(progress: seq<Book>, from: int, page: int, fetch: (int, nat) -> Attempt,
                   books: seq<Book>, saves: seq<Snapshot>, tries: seq<nat>)
    returns (books': seq<Book>, saves': seq<Snapshot>, tries': seq<nat>)
    requires from <= page
    requires LoopState(progress, from, page, fetch, books, saves, tries)
    ensures LoopState(progress, from, page + 1, fetch, books', saves', tries')
  {
    var rows, n := FetchPage(page, fetch);
    var found := if rows.Some? then PageBooks(rows.value) else [];
    books' := books + found;
    saves' := saves;
    if rows.Some? && page % SaveEvery == 0 {
      saves' := saves + [Snapshot(page, |books'|)];
    }
    tries' := tries + [n];
    NextPage(progress, from, page, fetch, books, saves, tries, rows, n);
  }

  /** The state after page `page` follows from the state before it and the
      page's outcome. */
  lemma {:induction false} NextPage(progress: seq<Book>, from: int, page: int, fetch: (int, nat) -> Attempt,
                 books: seq<Book>, saves: seq<Snapshot>, tries: seq<nat>, rows: Option<seq<Row>>, n: nat)
    requires from <= page
    requires LoopState(progress, from, page, fetch, books, saves, tries)
    requires rows == FirstLoaded(page, fetch, 0) && n == AttemptsUsed(page, fetch, 0) && 1 <= n <= MaxAttempts
    ensures var found := if rows.Some? then PageBooks(rows.value) else [];
      var books' := books + found;
      LoopState(progress, from, page + 1, fetch, books',
                if rows.Some? && page % SaveEvery == 0 then saves + [Snapshot(page, |books'|)] else saves,
                tries + [n])
  {
    var found := if rows.Some? then PageBooks(rows.value) else [];
    NextBooks(progress, from, page, fetch, books, found);
    NextSaves(progress, from, page, fetch, saves, rows.Some?, |books + found|);
    NextTries(from, page, fetch, tries, n);
  }

  lemma {:induction false} NextBooks(progress: seq<Book>, from: int, page: int, fetch: (int, nat) -> Attempt,
                                     books: seq<Book>, found: seq<Book>)
    requires from <= page
    requires books == progress + Collected(from, page, fetch)
    requires found == PageResult(page, fetch)
    ensures books + found == progress + Collected(from, page + 1, fetch)
  {
    BooksStep(from, page + 1, fetch);
    AppendAssoc(progress, Collected(from, page, fetch), found);
  }

  lemma {:induction false} NextSaves(progress: seq<Book>, from: int, page: int, fetch: (int, nat) -> Attempt,
                                     saves: seq<Snapshot>, loaded: bool, count: nat)
    requires from <= page
    requires saves == SavePoints(progress, from, page, fetch)
    requires loaded == FirstLoaded(page, fetch, 0).Some?
    requires count == |progress| + |Collected(from, page + 1, fetch)|
    ensures (if loaded && page % SaveEvery == 0 then saves + [Snapshot(page, count)] else saves)
            == SavePoints(progress, from, page + 1, fetch)
  {
    SavesStep(progress, from, page + 1, fetch);
  }

  lemma {:induction false} NextTries(from: int, page: int, fetch: (int, nat) -> Attempt, tries: seq<nat>, n: nat)
    requires from <= page
    requires tries == AttemptCounts(from, page, fetch)
    requires n == AttemptsUsed(page, fetch, 0)
    ensures tries + [n] == AttemptCounts(from, page + 1, fetch)
  {
    TriesStep(from, page + 1, fetch);
  }

  lemma AppendAssoc<T>(a: seq<T>, b: seq<T>, c: seq<T>)
    ensures (a + b) + c == a + (b + c)
  {
  }

  /** The page loop of `fetch_books_batch`, once the browser is up, over a
      range of at least one page. */
  method FetchPages(progress: seq<Book>, startPage: int, endPage: int, fetch: (int, nat) -> Attempt)
    returns (books: seq<Book>, saves: seq<Snapshot>, tries: seq<nat>)
    requires startPage <= endPage
    ensures LoopState(progress, startPage, endPage + 1, fetch, books, saves, tries)
  {
    books := progress;
    saves := [];
    tries := [];
    EmptyRange(progress, startPage, startPage, fetch);
    var page := startPage;
    while page <= endPage
      invariant startPage <= page <= endPage + 1
      invariant LoopState(progress, startPage, page, fetch, books, saves, tries)
    {
      books, saves, tries := VisitPage(progress, startPage, page, fetch, books, saves, tries);
      page := page + 1;
    }
    assert page == endPage + 1;
  }

  /** `fetch_books_batch`: the books already in the progress file followed by
      the accepted rows of each page from `startPage` to `endPage`, in page
      and row order; without a browser, the progress as it is. Every page
      takes between one and three attempts. The final save of the `finally`
      clause writes the returned list. */
  method FetchBooksBatch(progress: seq<Book>, startPage: int, endPage: int,
                         fetch: (int, nat) -> Attempt, driverReady: bool)
    returns (books: seq<Book>, saves: seq<Snapshot>, tries: seq<nat>)
    ensures !driverReady ==> books == progress && saves == [] && tries == []
    ensures driverReady ==>
      && books == progress + Collected(startPage, endPage + 1, fetch)
      && saves == SavePoints(progress, startPage, endPage + 1, fetch)
      && |tries| == (if endPage < startPage then 0 else endPage + 1 - startPage)
      && (forall i :: 0 <= i < |tries| ==> 1 <= tries[i] <= MaxAttempts)
      && tries == AttemptCounts(startPage, endPage + 1, fetch)
  {
    if !driverReady {
      return progress, [], [];
    }
    if endPage < startPage {
      EmptyRange(progress, startPage, endPage + 1, fetch);
      return progress, [], [];
    }
    books, saves, tries := FetchPages(progress, startPage, endPage, fetch);
    AttemptCountsLength(startPage, endPage + 1, fetch);
  }

  /** An empty page range collects nothing. */
  lemma EmptyRange(progress: seq<Book>, from: int, to: int, fetch: (int, nat) -> Attempt)
    requires to <= from
    ensures Collected(from, to, fetch) == [] && SavePoints(progress, from, to, fetch) == []
    ensures AttemptCounts(from, to, fetch) == []
  {
  }

  /** One count per page. */
  lemma {:induction false} AttemptCountsLength(from: int, to: int, fetch: (int, nat) -> Attempt)
    ensures |AttemptCounts(from, to, fetch)| == (if to <= from then 0 else to - from)
    decreases if to <= from then 0 else to - from
  {
    if from < to {
      AttemptCountsLength(from, to - 1, fetch);
    }
  }

  /** Every collected book has a name and an ISBN and neither holds a
      template marker, whatever the pages held. */
  lemma {:induction false} CollectedBooksAreClean(from: int, to: int, fetch: (int, nat) -> Attempt)
    ensures AllClean(Collected(from, to, fetch))
    decreases if to <= from then 0 else to - from
  {
    if from < to {
      CollectedBooksAreClean(from, to - 1, fetch);
      BooksStep(from, to, fetch);
      PageResultClean(to - 1, fetch);
      CleanConcat(Collected(from, to - 1, fetch), PageResult(to - 1, fetch));
    }
  }

  predicate AllClean(bs: seq<Book>) {
    forall i :: 0 <= i < |bs| ==> CleanBook(bs[i])
  }

  lemma PageResultClean(page: int, fetch: (int, nat) -> Attempt)
    ensures AllClean(PageResult(page, fetch))
  {
    if FirstLoaded(page, fetch, 0).Some? {
      PageBooksClean(FirstLoaded(page, fetch, 0).value);
    }
  }

  lemma CleanConcat(a: seq<Book>, b: seq<Book>)
    requires AllClean(a) && AllClean(b)
    ensures AllClean(a + b)
  {
    assert forall i :: 0 <= i < |a + b| ==> (a + b)[i] == (if i < |a| then a[i] else b[i - |a|]);
  }

  /** A page whose three attempts all fail contributes nothing and causes no save. */
  lemma {:induction false} FailedPageSkipped(progress: seq<Book>, from: int, p: int, fetch: (int, nat) -> Attempt)
    requires from <= p
    requires forall k :: 0 <= k < MaxAttempts ==> fetch(p, k).Failed?
    ensures Collected(from, p + 1, fetch) == Collected(from, p, fetch)
    ensures SavePoints(progress, from, p + 1, fetch) == SavePoints(progress, from, p, fetch)
  {
    assert fetch(p, 0).Failed? && fetch(p, 1).Failed? && fetch(p, 2).Failed?;
    assert FirstLoaded(p, fetch, 0) == None;
  }

  /** One row of `sheet.get_all_records()`: the title column and the ISBN
      column as displayed. */
  datatype SheetRecord = SheetRecord(title: string, isbn: string)

  /** `sheet.update_cell(row, col, value)`. */
  datatype CellUpdate = CellUpdate(row: int, col: int, value: string)

  /** Index `k` holds the first book named `name`. */
  predicate FirstMatchAt(books: seq<Book>, name: string, k: int) {
    && 0 <= k < |books|
    && books[k].name == name
    && forall j :: 0 <= j < k ==> books[j].name != name
  }

  /** The first fetched book with exactly this name. */
  function FirstByName(books: seq<Book>, name: string): (r: Option<Book>)
    ensures r.Some? ==> exists k :: FirstMatchAt(books, name, k) && books[k] == r.value
    ensures r.None? <==> forall i :: 0 <= i < |books| ==> books[i].name != name
  {
    if books == [] then None
    else if books[0].name == name then
      assert FirstMatchAt(books, name, 0);
      Some(books[0])
    else
      var r := FirstByName(books[1..], name);
      if r.Some? then
        var k :| FirstMatchAt(books[1..], name, k) && books[1..][k] == r.value;
        assert FirstMatchAt(books, name, k + 1);
        r
      else
        assert forall i :: 0 <= i < |books| ==> books[i].name != name by {
          forall i | 0 <= i < |books| ensures books[i].name != name {
            if i > 0 { assert books[i] == books[1..][i - 1]; }
          }
        }
        r
  }

  /** The ISBN a record should be corrected to: that of the first fetched
      book with the record's title, when it differs from the record's
      stripped ISBN. */
  function Correction(rec: SheetRecord, books: seq<Book>): (r: Option<string>)
    ensures r.Some? ==>
      exists k :: FirstMatchAt(books, rec.title, k) && books[k].isbn == r.value && r.value != Trim(rec.isbn)
    ensures r.None? ==>
      forall k :: FirstMatchAt(books, rec.title, k) ==> books[k].isbn == Trim(rec.isbn)
  {
    match FirstByName(books, rec.title)
    case Some(b) =>
      if b.isbn != Trim(rec.isbn) then Some(b.isbn) else None
    case None => None
  }

  /** The correction read off the two values the loop computes: the first
      match for the title and the stripped stored ISBN. */
  lemma CorrectionFromMatch(rec: SheetRecord, books: seq<Book>, found: Option<Book>, oldIsbn: string)
    requires found == FirstByName(books, rec.title) && oldIsbn == Trim(rec.isbn)
    ensures Correction(rec, books)
         == if found.Some? && found.value.isbn != oldIsbn then Some(found.value.isbn) else None
  {
  }

  /** The correction of every record, in sheet order. */
  function Fixes(records: seq<SheetRecord>, books: seq<Book>): (f: seq<Option<string>>)
    ensures |f| == |records|
    ensures forall i :: 0 <= i < |records| ==> f[i] == Correction(records[i], books)
  {
    seq(|records|, i requires 0 <= i < |records| => Correction(records[i], books))
  }

  /** The cell writes for the first `n` corrections; record `i` sits on
      sheet row `i + 2`, below the header. */
  function Corrections(fixes: seq<Option<string>>, col: int, n: nat): (r: seq<CellUpdate>)
    requires n <= |fixes|
    ensures |r| <= n
  {
    if n == 0 then []
    else
      var prefix := Corrections(fixes, col, n - 1);
      match fixes[n - 1]
      case Some(v) => prefix + [CellUpdate(n + 1, col, v)]
      case None => prefix
  }

  /** Record `n - 1` adds its write, if any, after those of the earlier records. */
  lemma CorrectionsStep(fixes: seq<Option<string>>, col: int, n: nat)
    requires 0 < n <= |fixes|
    ensures Corrections(fixes, col, n)
      == Corrections(fixes, col, n - 1)
         + (match fixes[n - 1]
            case Some(v) => [CellUpdate(n + 1, col, v)]
            case None => [])
  {
  }

  /** The writes for the first `n` records go to column `col`, to rows
      between 2 and `n + 1`, in strictly increasing row order (so no row is
      written twice). */
  lemma {:induction false} CorrectionRows(fixes: seq<Option<string>>, col: int, n: nat)
    requires n <= |fixes|
    ensures var r := Corrections(fixes, col, n);
      && (forall j :: 0 <= j < |r| ==> 2 <= r[j].row <= n + 1 && r[j].col == col)
      && (forall j, k :: 0 <= j < k < |r| ==> r[j].row < r[k].row)
  {
    if n > 0 {
      CorrectionRows(fixes, col, n - 1);
      CorrectionsStep(fixes, col, n);
      var prefix := Corrections(fixes, col, n - 1);
      match fixes[n - 1]
      case Some(v) =>
        ExtendRows(prefix, CellUpdate(n + 1, col, v), col, n);
      case None =>
    }
  }

  /** A write below every earlier one keeps the rows in range and increasing. */
  lemma ExtendRows(prefix: seq<CellUpdate>, u: CellUpdate, col: int, n: nat)
    requires forall j :: 0 <= j < |prefix| ==> 2 <= prefix[j].row <= n && prefix[j].col == col
    requires forall j, k :: 0 <= j < k < |prefix| ==> prefix[j].row < prefix[k].row
    requires u.row == n + 1 && u.col == col && n >= 1
    ensures var r := prefix + [u];
      && (forall j :: 0 <= j < |r| ==> 2 <= r[j].row <= n + 1 && r[j].col == col)
      && (forall j, k :: 0 <= j < k < |r| ==> r[j].row < r[k].row)
  {
  }

  /** The value the writes `us` put into sheet row `row`, if any (the last
      such write). */
  function WriteFor(us: seq<CellUpdate>, row: int): Option<string> {
    if us == [] then None
    else if us[|us| - 1].row == row then Some(us[|us| - 1].value)
    else WriteFor(us[..|us| - 1], row)
  }

  /** A row is written exactly when some write targets it, and what lands
      there is the value of one of those writes. */
  lemma {:induction false} WriteForSpec(us: seq<CellUpdate>, row: int)
    ensures WriteFor(us, row).None? <==> forall j :: 0 <= j < |us| ==> us[j].row != row
    ensures WriteFor(us, row).Some? ==>
      exists j :: 0 <= j < |us| && us[j].row == row && us[j].value == WriteFor(us, row).value
    decreases |us|
  {
    if us != [] && us[|us| - 1].row != row {
      var front := us[..|us| - 1];
      WriteForSpec(front, row);
      assert forall j :: 0 <= j < |front| ==> front[j] == us[j];
      if WriteFor(front, row).Some? {
        var j :| 0 <= j < |front| && front[j].row == row && front[j].value == WriteFor(front, row).value;
        assert us[j] == front[j];
      }
    }
  }

  /** A write appended at the end decides its own row and leaves the others
      to the earlier writes. */
  lemma WriteForAppend(us: seq<CellUpdate>, u: CellUpdate, row: int)
    ensures WriteFor(us + [u], row) == if u.row == row then Some(u.value) else WriteFor(us, row)
  {
    var s := us + [u];
    assert s[..|s| - 1] == us;
  }

  /** Sheet row `i + 2` ends up holding exactly record `i`'s correction:
      written with it when there is one, untouched otherwise. */
  lemma {:induction false} CorrectionsCover(fixes: seq<Option<string>>, col: int, n: nat, i: nat)
    requires i < n <= |fixes|
    ensures WriteFor(Corrections(fixes, col, n), i + 2) == fixes[i]
    decreases n
  {
    if i < n - 1 {
      CoverEarlier(fixes, col, n, i);
      CorrectionsCover(fixes, col, n - 1, i);
    } else {
      CoverLast(fixes, col, n, i);
    }
  }

  /** Record `n - 1` decides what lands in its own row, `n + 1`. */
  lemma CoverLast(fixes: seq<Option<string>>, col: int, n: nat, i: nat)
    requires i + 1 == n <= |fixes|
    ensures WriteFor(Corrections(fixes, col, n), i + 2) == fixes[i]
  {
    var prefix := Corrections(fixes, col, i);
    CorrectionsStep(fixes, col, n);
    NoWriteBeyond(fixes, col, i, i + 2);
    match fixes[i]
    case Some(v) =>
      WriteForAppend(prefix, CellUpdate(i + 2, col, v), i + 2);
    case None =>
  }

  /** The first `n` records write nothing below sheet row `n + 1`. */
  lemma {:induction false} NoWriteBeyond(fixes: seq<Option<string>>, col: int, n: nat, row: int)
    requires n <= |fixes| && row > n + 1
    ensures WriteFor(Corrections(fixes, col, n), row) == None
  {
    if n > 0 {
      NoWriteBeyond(fixes, col, n - 1, row);
      CorrectionsStep(fixes, col, n);
      var prefix := Corrections(fixes, col, n - 1);
      match fixes[n - 1]
      case Some(v) =>
        WriteForAppend(prefix, CellUpdate(n + 1, col, v), row);
      case None =>
    }
  }

  /** Record `n - 1` leaves the rows of the earlier records alone. */
  lemma CoverEarlier(fixes: seq<Option<string>>, col: int, n: nat, i: nat)
    requires i < n - 1 && n <= |fixes|
    ensures WriteFor(Corrections(fixes, col, n), i + 2) == WriteFor(Corrections(fixes, col, n - 1), i + 2)
  {
    var prefix := Corrections(fixes, col, n - 1);
    CorrectionsStep(fixes, col, n);
    match fixes[n - 1]
    case Some(v) =>
      WriteForAppend(prefix, CellUpdate(n + 1, col, v), i + 2);
    case None =>
  }

  /** Every record's row gets exactly its correction. */
  lemma AllCorrectionsCovered(records: seq<SheetRecord>, books: seq<Book>, col: int)
    ensures forall i :: 0 <= i < |records| ==>
      WriteFor(Corrections(Fixes(records, books), col, |records|), i + 2) == Correction(records[i], books)
  {
    forall i | 0 <= i < |records|
      ensures WriteFor(Corrections(Fixes(records, books), col, |records|), i + 2) == Correction(records[i], books)
    {
      CorrectionsCover(Fixes(records, books), col, |records|, i);
    }
  }

  /** `update_sheet`: walks the records in order and writes the corrected
      ISBN into column `isbnCol` of each record that has a correction;
      returns the writes and their count. */
  method UpdateSheet(records: seq<SheetRecord>, books: seq<Book>, isbnCol: int)
    returns (updates: seq<CellUpdate>, updatedCount: nat)
    ensures updates == Corrections(Fixes(records, books), isbnCol, |records|)
    ensures updatedCount == |updates|
    ensures forall j :: 0 <= j < |updates| ==> 2 <= updates[j].row <= |records| + 1
    ensures forall i :: 0 <= i < |records| ==> WriteFor(updates, i + 2) == Correction(records[i], books)
  {
    ghost var fixes := Fixes(records, books);
    updates := [];
    updatedCount := 0;
    var i := 0;
    while i < |records|
      invariant i <= |records|
      invariant updates == Corrections(fixes, isbnCol, i)
      invariant updatedCount == |updates|
    {
      var record := records[i];
      var oldIsbn := Trim(record.isbn);
      var found := FirstByName(books, record.title);
      CorrectionsStep(fixes, isbnCol, i + 1);
      CorrectionFromMatch(record, books, found, oldIsbn);
      assert fixes[i] == Correction(record, books);
      if found.Some? && found.value.isbn != oldIsbn {
        updates := updates + [CellUpdate(i + 2, isbnCol, found.value.isbn)];
        updatedCount := updatedCount + 1;
      }
      i := i + 1;
    }
    CorrectionRows(fixes, isbnCol, |records|);
    AllCorrectionsCovered(records, books, isbnCol);
  }

  /** A record whose title matches no fetched book, or whose first match
      already carries its (stripped) ISBN, is never written. */
  lemma UnchangedRecordsUntouched(records: seq<SheetRecord>, books: seq<Book>, col: int, i: nat)
    requires i < |records|
    requires FirstByName(books, records[i].title).None?
             || FirstByName(books, records[i].title).value.isbn == Trim(records[i].isbn)
    ensures var us := Corrections(Fixes(records, books), col, |records|);
      forall j :: 0 <= j < |us| ==> us[j].row != i + 2
  {
    var fixes := Fixes(records, books);
    CorrectionsCover(fixes, col, |records|, i);
    WriteForSpec(Corrections(fixes, col, |records|), i + 2);
  }
}
