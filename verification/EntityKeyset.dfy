/** Choices for report controls: a four-part keyset cursor evaluated in three-valued logic. */
module EntityKeyset {
  import opened Ids

  // ----- SQL truth values -----

  datatype Sql = True | False | Unknown

  function And(a: Sql, b: Sql): Sql
  {
    if a == False || b == False then False else if a == Unknown || b == Unknown then Unknown else True
  }

  function Or(a: Sql, b: Sql): Sql
  {
    if a == True || b == True then True else if a == Unknown || b == Unknown then Unknown else False
  }

  function Known(b: bool): Sql
  {
    if b then True else False
  }

  /** `a < b` of nullable times. */
  function LessSeen(a: Option<int>, b: Option<int>): Sql
  {
    if a.None? || b.None? then Unknown else Known(a.value < b.value)
  }

  predicate LessBool(a: bool, b: bool)
  {
    !a && b
  }

  // ----- rows, cursors and the predicate -----

  datatype Choice = Choice(id: Id, pinned: bool, ranked: bool, lastSeen: Option<int>, caption: string)

  datatype Cursor = Cursor(kind: string, query: string, id: Id, pinned: bool, ranked: bool, lastSeen: Option<int>)

  function CursorOf(kind: string, query: string, c: Choice): Cursor
  {
    Cursor(kind, query, c.id, c.pinned, c.ranked, c.lastSeen)
  }

  /** The condition that the query adds for a cursor. */
  function EntityAfter(c: Choice, after: Cursor): Sql
  {
    var samePinned := Known(c.pinned == after.pinned);
    var sameRanked := Known(c.ranked == after.ranked);
    Or(Known(LessBool(c.pinned, after.pinned)),
    Or(And(samePinned, Known(LessBool(c.ranked, after.ranked))),
    Or(And(And(samePinned, sameRanked),
           Or(And(Known(after.lastSeen.None?), Known(c.lastSeen.Some?)), LessSeen(c.lastSeen, after.lastSeen))),
       And(And(samePinned, sameRanked),
           And(Known(c.lastSeen == after.lastSeen), Known(Before(after.id, c.id)))))))
  }

  // ----- the order of the query -----

  /** Descending times, nulls first. */
  predicate SeenFirst(a: Option<int>, b: Option<int>)
  {
    b.Some? && (a.None? || a.value > b.value)
  }

  /** Pinned first, then ranked, then the latest seen with nulls first, then by identifier. */
  predicate Precedes(a: Choice, b: Choice)
  {
    if a.pinned != b.pinned then a.pinned
    else if a.ranked != b.ranked then a.ranked
    else if a.lastSeen != b.lastSeen then SeenFirst(a.lastSeen, b.lastSeen)
    else Before(a.id, b.id)
  }

  lemma PrecedesTotal(a: Choice, b: Choice)
    ensures !Precedes(a, a)
    ensures a.id != b.id ==> (Precedes(a, b) <==> !Precedes(b, a))
  {
    BeforeIrreflexive(a.id);
    BeforeTotal(a.id, b.id);
    if Before(a.id, b.id) {
      BeforeAsymmetric(a.id, b.id);
    }
  }

  lemma PrecedesTransitive(a: Choice, b: Choice, c: Choice)
    requires Precedes(a, b) && Precedes(b, c)
    ensures Precedes(a, c)
  {
    if Before(a.id, b.id) && Before(b.id, c.id) {
      BeforeTransitive(a.id, b.id, c.id);
    }
  }

  /** A row satisfies the condition exactly when it strictly follows the cursor's row. */
  lemma AfterIsFollows(c: Choice, kind: string, query: string, last: Choice)
    ensures EntityAfter(c, CursorOf(kind, query, last)) == True <==> Precedes(last, c)
  {
  }

  // ----- the query -----

  /** The filtered rows in the order of the query; identifiers make the order strict. */
  ghost predicate Ordered(rows: seq<Choice>)
  {
    forall i, j :: 0 <= i < j < |rows| ==> Precedes(rows[i], rows[j])
  }

  /** What the order shows first: pinned rows, then ranked ones, then rows never seen, then the latest
      seen, and the smaller identifier. */
  lemma OrderShows(rows: seq<Choice>, i: nat, j: nat)
    requires Ordered(rows) && i < j < |rows|
    ensures rows[j].pinned ==> rows[i].pinned
    ensures rows[i].pinned == rows[j].pinned && rows[j].ranked ==> rows[i].ranked
    ensures rows[i].pinned == rows[j].pinned && rows[i].ranked == rows[j].ranked ==>
      match (rows[i].lastSeen, rows[j].lastSeen)
      case (None, None) => Before(rows[i].id, rows[j].id)
      case (None, Some(_)) => true
      case (Some(_), None) => false
      case (Some(a), Some(b)) => a > b || (a == b && Before(rows[i].id, rows[j].id))
  {
    assert Precedes(rows[i], rows[j]);
  }

  /** A query keeps the rows whose condition is true; unknown does not keep a row. */
  function RowsAfter(rows: seq<Choice>, after: Option<Cursor>): seq<Choice>
  {
    if rows == [] then []
    else
      var kept := if after.None? || EntityAfter(rows[0], after.value) == True then [rows[0]] else [];
      kept + RowsAfter(rows[1..], after)
  }

  lemma {:induction false} AllFollow(rows: seq<Choice>, after: Option<Cursor>)
    requires after.None? || forall i :: 0 <= i < |rows| ==> EntityAfter(rows[i], after.value) == True
    ensures RowsAfter(rows, after) == rows
  {
    if rows != [] {
      AllFollow(rows[1..], after);
    }
  }

  /** The rows after the cursor of row `i - 1` are the rows from `i` on. */
  lemma {:induction false} AfterRow(rows: seq<Choice>, kind: string, query: string, i: nat)
    requires Ordered(rows) && 0 < i <= |rows|
    ensures RowsAfter(rows, Some(CursorOf(kind, query, rows[i - 1]))) == rows[i..]
  {
    hide EntityAfter;
    var last := rows[i - 1];
    AfterIsFollows(rows[0], kind, query, last);
    if i > 1 {
      PrecedesAsymmetric(rows[0], last);
      AfterRow(rows[1..], kind, query, i - 1);
      assert rows[1..][i - 1..] == rows[i..];
    } else {
      PrecedesTotal(last, last);
      forall j | 0 <= j < |rows[1..]|
        ensures EntityAfter(rows[1..][j], CursorOf(kind, query, last)) == True
      {
        AfterIsFollows(rows[j + 1], kind, query, last);
      }
      AllFollow(rows[1..], Some(CursorOf(kind, query, last)));
    }
  }

  lemma PrecedesAsymmetric(a: Choice, b: Choice)
    requires Precedes(a, b)
    ensures !Precedes(b, a)
  {
    if Precedes(b, a) {
      PrecedesTransitive(a, b, a);
      PrecedesTotal(a, a);
    }
  }

  // ----- one page -----

  const DEFAULT_CHOICES := 12
  const MAX_CHOICES := 50

  function PageSize(size: int): (p: nat)
    ensures 1 <= p <= 50 && (1 <= size <= 50 ==> p == size)
    ensures size <= 0 ==> p == 12
    ensures size > 50 ==> p == 50
  {
    if size <= 0 then DEFAULT_CHOICES else if size > MAX_CHOICES then MAX_CHOICES else size
  }

  datatype Response = InvalidKind | InvalidCursor | Page(entities: seq<Choice>, next: Option<Cursor>)

  /** Collect the fetched rows; one row more than a page means that another page follows, after the
      last row of this page. */
  method ScanEntityChoices(rows: seq<Choice>, kind: string, query: string, pageSize: nat) returns (r: Response)
    requires pageSize > 0
    ensures r == Page(Limit(rows, pageSize), if |rows| > pageSize then Some(CursorOf(kind, query, rows[pageSize - 1]))
      else None)
  {
    var entities: seq<Choice> := [];
    var last := Cursor("", "", "", false, false, None);
    for i := 0 to |rows|
      invariant entities == rows[..i]
      invariant i >= pageSize ==> last == CursorOf(kind, query, rows[pageSize - 1])
    {
      var entity := rows[i];
      entities := entities + [entity];
      if |entities| == pageSize {
        last := Cursor(kind, query, entity.id, entity.pinned, entity.ranked, entity.lastSeen);
      }
    }
    if |entities| > pageSize {
      return Page(entities[..pageSize], Some(last));
    }
    return Page(entities, None);
  }

  /** What the client sends back: nothing, a text that does not decode, or a cursor. */
  datatype CursorText = NoCursor | Undecodable | Decoded(cursor: Cursor)

  /** What a request depends on: the filtered rows of a kind and query, trimming with lower-casing,
      and the form of an identifier. */
  datatype Service = Service(catalog: (string, string) -> seq<Choice>, fold: string -> string, isMac: Id -> bool)

  predicate ValidKind(s: Service, kind: string)
  {
    s.fold(kind) == "ap" || s.fold(kind) == "device"
  }

  predicate ValidCursor(s: Service, kind: string, query: string, text: CursorText)
  {
    match text
    case NoCursor => true
    case Undecodable => false
    case Decoded(c) => c.kind == s.fold(kind) && c.query == s.fold(query) && s.isMac(c.id)
  }

  function Sent(text: CursorText): Option<Cursor>
  {
    if text.Decoded? then Some(text.cursor) else None
  }

  function RowsOf(s: Service, kind: string, query: string): seq<Choice>
  {
    s.catalog(s.fold(kind), s.fold(query))
  }

  /** One request. */
  method Entities(s: Service, kind: string, query: string, text: CursorText, size: int) returns (r: Response)
    ensures r.InvalidKind? <==> s.fold(kind) != "ap" && s.fold(kind) != "device"
    ensures r.InvalidCursor? <==> !r.InvalidKind? && match text
                                  case NoCursor => false
                                  case Undecodable => true
                                  case Decoded(c) =>
                                    c.kind != s.fold(kind) || c.query != s.fold(query) || !s.isMac(c.id)
    ensures r.Page? ==> r == Fetched(RowsOf(s, kind, query), s.fold(kind), s.fold(query), Sent(text), PageSize(size))
    ensures r == Answered(s, kind, query, text, size)
  {
    var kindName := s.fold(kind);
    if kindName != "ap" && kindName != "device" {
      return InvalidKind;
    }
    var queryText := s.fold(query);
    var p := PageSize(size);
    if !ValidCursor(s, kind, query, text) {
      return InvalidCursor;
    }
    var fetched := Limit(RowsAfter(s.catalog(kindName, queryText), Sent(text)), p + 1);
    r := ScanEntityChoices(fetched, kindName, queryText, p);
  }

  /** The answer to one request. */
  function Answered(s: Service, kind: string, query: string, text: CursorText, size: int): Response
  {
    if !ValidKind(s, kind) then InvalidKind
    else if !ValidCursor(s, kind, query, text) then InvalidCursor
    else Fetched(RowsOf(s, kind, query), s.fold(kind), s.fold(query), Sent(text), PageSize(size))
  }

  /** A cursor is bound to the kind and query that it was handed out for. */
  lemma CursorBound(s: Service, kind: string, query: string, text: CursorText, size: int,
                    otherKind: string, otherQuery: string, otherSize: int)
    requires Answered(s, kind, query, text, size).Page? && Answered(s, kind, query, text, size).next.Some?
    requires s.isMac(Answered(s, kind, query, text, size).next.value.id)
    requires s.fold(otherKind) == "ap" || s.fold(otherKind) == "device"
    ensures var again := Answered(s, otherKind, otherQuery, Decoded(Answered(s, kind, query, text, size).next.value),
      otherSize);
      && (again.InvalidCursor? <==> s.fold(otherKind) != s.fold(kind) || s.fold(otherQuery) != s.fold(query))
      && (again.InvalidCursor? || again.Page?)
  {
  }

  /** The page after a cursor: the next rows, and the cursor of the last one if more follow. */
  function Fetched(rows: seq<Choice>, kind: string, query: string, after: Option<Cursor>, p: nat): Response
    requires p > 0
  {
    var found := RowsAfter(rows, after);
    Page(Limit(found, p), if |found| > p then Some(CursorOf(kind, query, found[p - 1])) else None)
  }

  // ----- whole runs -----

  /** The rows listed by a run of requests, and whether its last page said that none follow. */
  datatype Listing = Listing(entities: seq<Choice>, complete: bool)

  /** At most `n` requests, each with the cursor of the one before, until a page has no cursor or a
      request is refused. */
  function Followed(s: Service, kind: string, query: string, text: CursorText, size: int, n: nat): Listing
    decreases n
  {
    if n == 0 then Listing([], false)
    else
      match Answered(s, kind, query, text, size)
      case Page(entities, None) => Listing(entities, true)
      case Page(entities, Some(next)) =>
        var rest := Followed(s, kind, query, Decoded(next), size, n - 1);
        Listing(entities + rest.entities, rest.complete)
      case _ => Listing([], false)
  }

  /** The cursor of the rows from `i` on. */
  function CursorAt(rows: seq<Choice>, kind: string, query: string, i: nat): Option<Cursor>
    requires i <= |rows|
  {
    if i == 0 then None else Some(CursorOf(kind, query, rows[i - 1]))
  }

  lemma FetchedAt(rows: seq<Choice>, kind: string, query: string, p: nat, i: nat)
    requires Ordered(rows) && p > 0 && i <= |rows|
    ensures Fetched(rows, kind, query, CursorAt(rows, kind, query, i), p) ==
      if i + p < |rows| then Page(rows[i..i + p], CursorAt(rows, kind, query, i + p)) else Page(rows[i..], None)
  {
    if i == 0 {
      AllFollow(rows, None);
    } else {
      AfterRow(rows, kind, query, i);
    }
    var found := RowsAfter(rows, CursorAt(rows, kind, query, i));
    assert found == rows[i..];
    hide RowsAfter;
    if i + p < |rows| {
      assert rows[i..][..p] == rows[i..i + p] && found[p - 1] == rows[i + p - 1];
    }
  }

  function TextAt(s: Service, kind: string, query: string, i: nat): CursorText
    requires i <= |RowsOf(s, kind, query)|
  {
    match CursorAt(RowsOf(s, kind, query), s.fold(kind), s.fold(query), i)
    case None => NoCursor
    case Some(c) => Decoded(c)
  }

  predicate PageStart(p: nat, i: nat)
    requires p > 0
  {
    i % p == 0
  }

  predicate EndsPage(p: nat, j: nat)
    requires p > 0
  {
    (j + 1) % p == 0
  }

  /** The last row of every page from row `i` on that has a successor is identified by a MAC. */
  predicate EndsInMacs(rows: seq<Choice>, p: nat, isMac: Id -> bool, i: nat)
    requires p > 0
  {
    forall j :: i <= j < |rows| - 1 && EndsPage(p, j) ==> isMac(rows[j].id)
  }

  /** Between two page starts only the last row ends a page. */
  lemma PageEnd(i: nat, j: nat, p: nat)
    requires p > 0 && PageStart(p, i) && i <= j < i + p
    ensures EndsPage(p, j) <==> j + 1 == i + p
  {
    var k := j - i;
    assert i == p * (i / p);
    if k + 1 == p {
      assert j + 1 == p * (i / p + 1) by {
        assert p * (i / p + 1) == p * (i / p) + p;
      }
      MultipleRest(i / p + 1, 0, p);
    } else {
      MultipleRest(i / p, k + 1, p);
    }
  }

  lemma MultipleRest(q: nat, r: nat, p: nat)
    requires r < p
    ensures (p * q + r) % p == r
  {
    var x := p * q + r;
    assert x == p * (x / p) + x % p;
    var d := x / p - q;
    assert p * d == p * (x / p) - p * q;
    assert d > 0 ==> p * d >= p;
    assert d < 0 ==> p * d <= 0 - p;
  }

  lemma NextPageEnds(rows: seq<Choice>, p: nat, isMac: Id -> bool, i: nat)
    requires p > 0 && PageStart(p, i) && i + p < |rows|
    ensures PageStart(p, i + p)
    ensures EndsInMacs(rows, p, isMac, i) <==> isMac(rows[i + p - 1].id) && EndsInMacs(rows, p, isMac, i + p)
  {
    forall j | i <= j < i + p
      ensures EndsPage(p, j) <==> j + 1 == i + p
    {
      PageEnd(i, j, p);
    }
    PageEnd(i, i + p - 1, p);
  }

  lemma LastPageEnds(rows: seq<Choice>, p: nat, isMac: Id -> bool, i: nat)
    requires p > 0 && PageStart(p, i) && i + p >= |rows|
    ensures EndsInMacs(rows, p, isMac, i)
  {
    forall j | i <= j < |rows| - 1
      ensures !EndsPage(p, j)
    {
      PageEnd(i, j, p);
    }
  }

  /** The request for the rows from `i` on. */
  lemma AnsweredAt(s: Service, kind: string, query: string, size: int, i: nat)
    requires ValidKind(s, kind) && Ordered(RowsOf(s, kind, query)) && i <= |RowsOf(s, kind, query)|
    requires i > 0 ==> s.isMac(RowsOf(s, kind, query)[i - 1].id)
    ensures
      var rows, p := RowsOf(s, kind, query), PageSize(size);
      Answered(s, kind, query, TextAt(s, kind, query, i), size) ==
        if i + p < |rows| then Page(rows[i..i + p], CursorAt(rows, s.fold(kind), s.fold(query), i + p))
          else Page(rows[i..], None)
  {
    var rows, p := RowsOf(s, kind, query), PageSize(size);
    FetchedAt(rows, s.fold(kind), s.fold(query), p, i);
    assert Sent(TextAt(s, kind, query, i)) == CursorAt(rows, s.fold(kind), s.fold(query), i);
    hide Fetched, Ordered, RowsOf, PageSize;
  }

  /** The same request and the rest of its run. */
  lemma FollowedStep(s: Service, kind: string, query: string, size: int, i: nat, n: nat)
    requires ValidKind(s, kind) && Ordered(RowsOf(s, kind, query)) && n > 0 && i <= |RowsOf(s, kind, query)|
    requires i > 0 ==> s.isMac(RowsOf(s, kind, query)[i - 1].id)
    ensures
      var rows, p := RowsOf(s, kind, query), PageSize(size);
      Followed(s, kind, query, TextAt(s, kind, query, i), size, n) ==
        if i + p < |rows| then
          var rest := Followed(s, kind, query, TextAt(s, kind, query, i + p), size, n - 1);
          Listing(rows[i..i + p] + rest.entities, rest.complete)
        else Listing(rows[i..], true)
  {
    AnsweredAt(s, kind, query, size, i);
    hide Ordered, Answered, RowsOf, PageSize, CursorOf;
  }

  /** A prefix of the rows from `i` on, complete exactly when their pages end in MACs. */
  ghost predicate ListsFrom(rows: seq<Choice>, p: nat, isMac: Id -> bool, i: nat, run: Listing)
    requires p > 0 && i <= |rows|
  {
    && run.entities <= rows[i..]
    && (run.complete <==> EndsInMacs(rows, p, isMac, i))
    && (run.complete ==> run.entities == rows[i..])
  }

  lemma LastLists(rows: seq<Choice>, p: nat, isMac: Id -> bool, i: nat)
    requires p > 0 && PageStart(p, i) && i <= |rows| <= i + p
    ensures ListsFrom(rows, p, isMac, i, Listing(rows[i..], true))
  {
    LastPageEnds(rows, p, isMac, i);
  }

  lemma MoreLists(rows: seq<Choice>, p: nat, isMac: Id -> bool, i: nat, rest: Listing)
    requires p > 0 && PageStart(p, i) && i + p < |rows|
    requires if isMac(rows[i + p - 1].id) then ListsFrom(rows, p, isMac, i + p, rest) else rest == Listing([], false)
    ensures ListsFrom(rows, p, isMac, i, Listing(rows[i..i + p] + rest.entities, rest.complete))
  {
    NextPageEnds(rows, p, isMac, i);
    hide EndsInMacs, PageStart;
    assert rows[i..i + p] + rows[i + p..] == rows[i..];
  }

  /** Following cursors from row `i`. */
  lemma {:induction false} FollowedFrom(s: Service, kind: string, query: string, size: int, i: nat, n: nat)
    requires ValidKind(s, kind) && Ordered(RowsOf(s, kind, query)) && n > 0
    requires PageStart(PageSize(size), i) && i <= |RowsOf(s, kind, query)|
      && Enough(n, PageSize(size), i, |RowsOf(s, kind, query)|)
    requires i > 0 ==> s.isMac(RowsOf(s, kind, query)[i - 1].id)
    ensures ListsFrom(RowsOf(s, kind, query), PageSize(size), s.isMac, i,
                      Followed(s, kind, query, TextAt(s, kind, query, i), size, n))
    decreases n
  {
    hide *;
    var rows, p := RowsOf(s, kind, query), PageSize(size);
    FollowedStep(s, kind, query, size, i, n);
    if i + p < |rows| {
      NextPageEnds(rows, p, s.isMac, i);
      FewerPages(n, p, i, |rows|);
      if s.isMac(rows[i + p - 1].id) {
        FollowedFrom(s, kind, query, size, i + p, n - 1);
      } else {
        RefusedNext(s, kind, query, size, i + p, n - 1);
      }
      MoreLists(rows, p, s.isMac, i, Followed(s, kind, query, TextAt(s, kind, query, i + p), size, n - 1));
    } else {
      LastLists(rows, p, s.isMac, i);
    }
  }

  lemma RefusedNext(s: Service, kind: string, query: string, size: int, i: nat, n: nat)
    requires 0 < i <= |RowsOf(s, kind, query)| && !s.isMac(RowsOf(s, kind, query)[i - 1].id)
    ensures Followed(s, kind, query, TextAt(s, kind, query, i), size, n) == Listing([], false)
  {
  }

  /** `n` pages from row `i` on are enough for all rows. */
  predicate Enough(n: nat, p: nat, i: nat, total: nat)
  {
    n * p + i >= total
  }

  lemma FewerPages(n: nat, p: nat, i: nat, total: nat)
    requires n > 0 && Enough(n, p, i, total) && i + p < total
    ensures n > 1 && Enough(n - 1, p, i + p, total)
  {
    assert n == 1 ==> n * p == p;
    assert n * p == (n - 1) * p + p;
  }

  /** A run from the start lists a prefix of the ordered rows.  It is complete, and then lists all
      of them once, exactly when every row that ends a page before the last is identified by a MAC:
      the cursor of any other row is refused. */
  lemma PagesAreList(s: Service, kind: string, query: string, size: int, n: nat)
    requires ValidKind(s, kind) && Ordered(RowsOf(s, kind, query))
    requires n > 0 && n * PageSize(size) >= |RowsOf(s, kind, query)|
    ensures
      var rows := RowsOf(s, kind, query);
      var run := Followed(s, kind, query, NoCursor, size, n);
      && run.entities <= rows
      && (run.complete <==> EndsInMacs(rows, PageSize(size), s.isMac, 0))
      && (run.complete ==> run.entities == rows)
      && ((forall c :: c in rows ==> s.isMac(c.id)) ==> run == Listing(rows, true))
  {
    hide RowsOf, Ordered, Followed;
    var rows := RowsOf(s, kind, query);
    assert TextAt(s, kind, query, 0) == NoCursor;
    FollowedFrom(s, kind, query, size, 0, n);
    assert rows[0..] == rows;
  }

  /** Two access points of which the first is not identified by a MAC. */
  function TwoPoints(): Service
  {
    Service((kind, query) => [Choice("lab", true, false, None, "Lab"), Choice("office", false, false, None, "Office")],
            text => text, id => |id| == 17)
  }

  /** With one row a page, their second page is refused: the run stops after the first row. */
  lemma SecondPageRefused()
    ensures Ordered(RowsOf(TwoPoints(), "ap", ""))
    ensures Followed(TwoPoints(), "ap", "", NoCursor, 1, 2) == Listing([RowsOf(TwoPoints(), "ap", "")[0]], false)
  {
    var s, rows := TwoPoints(), RowsOf(TwoPoints(), "ap", "");
    FetchedAt(rows, "ap", "", 1, 0);
    assert Answered(s, "ap", "", NoCursor, 1) == Page([rows[0]], Some(CursorOf("ap", "", rows[0])));
    assert Answered(s, "ap", "", Decoded(CursorOf("ap", "", rows[0])), 1) == InvalidCursor;
  }
}
