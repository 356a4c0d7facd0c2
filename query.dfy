/**
 * `Document.find_all_accessible`: every document for an admin; otherwise
 * the documents that pass the SQL filter (owner, `LIKE '%id%'` on the two
 * sharing texts, public), newest update first.
 */
module DocumentQuery {
  import opened Text
  import opened IdList
  import opened Users
  import opened Access
  import opened Documents

  /**
   * The SQL filter: `Document.editors.like(f'%{user_id}%')` holds when the
   * decimal form of the id occurs anywhere in the text.
   */
  predicate MatchesLikeFilter(s: Sharing, userId: int) {
    s.ownerId == userId
    || Contains(s.editors, IntToString(userId))
    || Contains(s.viewers, IntToString(userId))
    || s.isPublic
  }

  /**
   * What the query reads of one stored document: the row itself, its
   * sharing columns and its update time, taken at the moment of the query.
   */
  datatype Row = Row(doc: Document, sharing: Sharing, updatedAt: nat)

  /** The row of a document as it stands. */
  function RowOf(d: Document): (r: Row)
    reads d
    ensures r.doc == d && r.sharing == d.SharingOf() && r.updatedAt == d.updatedAt
  {
    Row(d, d.SharingOf(), d.updatedAt)
  }

  /** The rows passing the SQL filter, in store order. */
  function FilterLike(rows: seq<Row>, userId: int): (r: seq<Row>)
    ensures forall x :: x in r ==> x in rows && MatchesLikeFilter(x.sharing, userId)
    ensures forall x :: x in rows ==>
      multiset(r)[x] == if MatchesLikeFilter(x.sharing, userId) then multiset(rows)[x] else 0
  {
    if rows == [] then []
    else
      var rest := FilterLike(rows[1..], userId);
      assert rows == [rows[0]] + rows[1..];
      if MatchesLikeFilter(rows[0].sharing, userId) then [rows[0]] + rest else rest
  }

  /** Newest update first. */
  predicate NewestFirst(rows: seq<Row>) {
    forall i, j :: 0 <= i < j < |rows| ==> rows[i].updatedAt >= rows[j].updatedAt
  }

  /** Place `x` in a newest-first sequence, ahead of the rows it is not older than. */
  function InsertByNewest(x: Row, rows: seq<Row>): (r: seq<Row>)
    requires NewestFirst(rows)
    ensures NewestFirst(r)
    ensures multiset(r) == multiset(rows) + multiset{x}
    ensures forall y :: y in r ==> y == x || y in rows
  {
    if rows == [] || rows[0].updatedAt <= x.updatedAt then
      PrependNewest(x, rows);
      [x] + rows
    else
      var rest := InsertByNewest(x, rows[1..]);
      assert rows == [rows[0]] + rows[1..];
      HeadIsNewest(rows);
      PrependNewest(rows[0], rest);
      [rows[0]] + rest
  }

  /** The first row of a newest-first sequence is not older than any later one. */
  lemma HeadIsNewest(rows: seq<Row>)
    requires NewestFirst(rows) && rows != []
    ensures forall y :: y in rows[1..] ==> rows[0].updatedAt >= y.updatedAt
  {
    forall y | y in rows[1..] ensures rows[0].updatedAt >= y.updatedAt {
      var k :| 0 <= k < |rows[1..]| && rows[1..][k] == y;
      assert rows[k + 1] == y;
    }
  }

  /** A row not older than any row of a newest-first sequence may go in front of it. */
  lemma PrependNewest(h: Row, rows: seq<Row>)
    requires NewestFirst(rows)
    requires forall y :: y in rows ==> h.updatedAt >= y.updatedAt
    ensures NewestFirst([h] + rows)
  {
    forall i, j | 0 <= i < j < |[h] + rows| ensures ([h] + rows)[i].updatedAt >= ([h] + rows)[j].updatedAt {
      assert ([h] + rows)[j] == rows[j - 1];
      if i > 0 { assert ([h] + rows)[i] == rows[i - 1]; }
    }
  }

  /** `ORDER BY updated_at DESC`. */
  function SortByNewest(rows: seq<Row>): (r: seq<Row>)
    ensures NewestFirst(r)
    ensures multiset(r) == multiset(rows)
  {
    if rows == [] then []
    else
      assert rows == [rows[0]] + rows[1..];
      InsertByNewest(rows[0], SortByNewest(rows[1..]))
  }

  /** `find_all_accessible`. */
  function FindAllAccessible(rows: seq<Row>, userId: int, role: Role): (r: seq<Row>)
    ensures NewestFirst(r)
    ensures forall x :: x in r ==> x in rows
    ensures role == Admin ==> multiset(r) == multiset(rows)
    ensures role != Admin ==> forall x :: x in r ==> x in rows && MatchesLikeFilter(x.sharing, userId)
    ensures role != Admin ==> forall x :: x in rows && MatchesLikeFilter(x.sharing, userId) ==> x in r
    ensures role != Admin ==> multiset(r) == multiset(FilterLike(rows, userId))
    ensures role != Admin ==> forall x :: x in rows ==>
      multiset(r)[x] == if MatchesLikeFilter(x.sharing, userId) then multiset(rows)[x] else 0
  {
    if role == Admin then
      var r := SortByNewest(rows);
      assert forall x :: x in r ==> x in rows by {
        forall x | x in r ensures x in rows {
          assert x in multiset(r);
        }
      }
      r
    else
      var kept := FilterLike(rows, userId);
      var r := SortByNewest(kept);
      FilterLikeKeepsMatches(rows, userId);
      assert forall x :: x in r ==> x in kept by {
        forall x | x in r ensures x in kept {
          assert x in multiset(r);
        }
      }
      assert forall x :: x in kept ==> x in r by {
        forall x | x in kept ensures x in r {
          assert x in multiset(kept);
        }
      }
      r
  }

  // ---------------------------------------------------------------- lemmas

  /** The filter keeps every row it matches. */
  lemma {:induction false} FilterLikeKeepsMatches(rows: seq<Row>, userId: int)
    ensures forall x :: x in rows && MatchesLikeFilter(x.sharing, userId) ==> x in FilterLike(rows, userId)
  {
    if rows != [] {
      FilterLikeKeepsMatches(rows[1..], userId);
      assert forall x :: x in rows ==> x == rows[0] || x in rows[1..];
    }
  }

  /**
   * Completeness: for a non-admin, every well-formed document the user may
   * view is returned. Each reason `can_view` accepts is caught by the filter:
   * a listed id occurs in the canonical text that lists it.
   */
  lemma ViewableIsListed(rows: seq<Row>, userId: int, role: Role, x: Row)
    requires x in rows && WellFormed(x.sharing)
    ensures ViewDecidable(x.sharing, userId, role)
    ensures CanView(x.sharing, userId, role) ==> x in FindAllAccessible(rows, userId, role)
  {
    var s := x.sharing;
    WellFormedDecides(s, userId, role);
    if CanView(s, userId, role) {
      if role == Admin {
        assert x in multiset(rows);
        assert x in multiset(FindAllAccessible(rows, userId, role));
      } else if s.ownerId != userId && !s.isPublic {
        if userId in EditorsFrom(s.ownerId, s.editors).value {
          assert s.editors != [];
          CanonicalMemberOccurs(s.editors, userId);
        } else {
          assert s.viewers != [];
          CanonicalMemberOccurs(s.viewers, userId);
        }
      }
    }
  }

  /** An admin gets every stored row, each exactly once. */
  lemma AdminGetsAll(rows: seq<Row>, userId: int)
    ensures |FindAllAccessible(rows, userId, Admin)| == |rows|
    ensures forall x :: x in rows ==> x in FindAllAccessible(rows, userId, Admin)
    ensures forall x :: x in FindAllAccessible(rows, userId, Admin) ==> x in rows
  {
    var r := FindAllAccessible(rows, userId, Admin);
    assert |r| == |multiset(r)| == |multiset(rows)| == |rows|;
    forall x | x in rows ensures x in r {
      assert x in multiset(rows);
    }
    forall x | x in r ensures x in rows {
      assert x in multiset(r);
    }
  }

  /**
   * The filter is wider than `can_view`: the id 1 occurs inside "21", so a
   * private document whose only editor is user 21 passes the filter for
   * user 1, who may not view it.
   */
  lemma LikeFilterAdmitsUnviewable()
    ensures var s := Sharing(21, EncodeIds([21]), "", false);
      && MatchesLikeFilter(s, 1) && ViewDecidable(s, 1, Editor) && !CanView(s, 1, Editor)
  {
    var s := Sharing(21, EncodeIds([21]), "", false);
    EditorsRoundTrip(21, [21]);
    assert IntToString(21) == "21";
    assert IntToString(1) == "1";
    assert EncodeIds([21]) == "21" by {
      assert Decimals([21]) == ["21"];
    }
    assert IsPrefix("1", "21"[1..]);
  }
}
