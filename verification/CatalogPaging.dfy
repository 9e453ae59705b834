/**
 * The list query page by page: rows ordered by name alone, then cut by limit and offset. When do the pages of
 * successive queries add up to the list? SQL leaves the order of equal names open for each query; what is said
 * here holds for every use of that freedom, and nothing says that a particular engine makes use of it.
 */
module CatalogPaging {
  import opened Outcomes
  import opened Paging
  import opened CatalogQueries

  /** Texts compare character by character. */
  predicate TextLeq(a: string, b: string) {
    a == "" || (b != "" && (a[0] < b[0] || (a[0] == b[0] && TextLeq(a[1..], b[1..]))))
  }

  lemma {:induction false} TextTotal(a: string, b: string)
    ensures TextLeq(a, b) || TextLeq(b, a)
  {
    if a != "" && b != "" {
      TextTotal(a[1..], b[1..]);
    }
  }

  lemma {:induction false} TextAntisymmetric(a: string, b: string)
    requires TextLeq(a, b) && TextLeq(b, a)
    ensures a == b
  {
    if a != "" {
      TextAntisymmetric(a[1..], b[1..]);
      assert a == [a[0]] + a[1..] && b == [b[0]] + b[1..];
    }
  }

  lemma {:induction false} TextTransitive(a: string, b: string, c: string)
    requires TextLeq(a, b) && TextLeq(b, c)
    ensures TextLeq(a, c)
  {
    if a != "" && a[0] == b[0] == c[0] {
      TextTransitive(a[1..], b[1..], c[1..]);
    }
  }

  predicate NotAfter(rows: Rows, i: nat, j: nat)
    requires i in rows && j in rows
  {
    TextLeq(rows[i].name.0, rows[j].name.0)
  }

  /** One of the orders the query may use: each selected row once, by name; rows of one name in any order. */
  ghost predicate Orders(rows: Rows, order: seq<nat>, selected: set<nat>) {
    && selected <= rows.Keys
    && (forall i :: i in order <==> i in selected)
    && (forall p, q :: 0 <= p < q < |order| ==> order[p] != order[q])
    && (forall p, q :: 0 <= p < q < |order| && order[p] in rows && order[q] in rows ==>
          NotAfter(rows, order[p], order[q]))
  }

  /** Any order has as many rows as the count query counts. */
  lemma {:induction false} OrderSize(rows: Rows, order: seq<nat>, selected: set<nat>)
    requires Orders(rows, order, selected)
    ensures |order| == |selected|
  {
    if order != [] {
      OrderTail(rows, order, selected);
      OrderSize(rows, order[1..], selected - {order[0]});
    }
  }

  lemma OrderTail(rows: Rows, order: seq<nat>, selected: set<nat>)
    requires Orders(rows, order, selected) && order != []
    ensures Orders(rows, order[1..], selected - {order[0]})
  {
    assert forall i :: i in order[1..] <==> i in order && i != order[0];
  }

  /** Put a row in front of the first that its name does not come after. */
  lemma {:induction false} OrderWith(rows: Rows, order: seq<nat>, selected: set<nat>, x: nat) returns (all: seq<nat>)
    requires Orders(rows, order, selected) && x in rows && x !in selected
    ensures Orders(rows, all, selected + {x})
  {
    if order == [] || NotAfter(rows, x, order[0]) {
      all := [x] + order;
      forall q | 0 <= q < |order| ensures NotAfter(rows, x, order[q]) {
        if q > 0 {
          assert NotAfter(rows, order[0], order[q]);
          TextTransitive(rows[x].name.0, rows[order[0]].name.0, rows[order[q]].name.0);
        }
      }
    } else {
      OrderTail(rows, order, selected);
      var rest := OrderWith(rows, order[1..], selected - {order[0]}, x);
      TextTotal(rows[x].name.0, rows[order[0]].name.0);
      all := [order[0]] + rest;
      forall q | 0 <= q < |rest| ensures NotAfter(rows, order[0], rest[q]) && rest[q] != order[0] {
        assert rest[q] in rest;
        if rest[q] != x {
          assert rest[q] in order;
          var p :| 0 <= p < |order| && order[p] == rest[q];
        }
      }
      assert selected - {order[0]} + {x} + {order[0]} == selected + {x};
    }
  }

  lemma {:induction false} OrderExists(rows: Rows, selected: set<nat>) returns (order: seq<nat>)
    requires selected <= rows.Keys
    ensures Orders(rows, order, selected)
  {
    if selected == {} {
      order := [];
    } else {
      var x :| x in selected;
      var rest := OrderExists(rows, selected - {x});
      order := OrderWith(rows, rest, selected - {x}, x);
      assert selected - {x} + {x} == selected;
    }
  }

  /** No two of the rows have the same name, whatever their namespaces. */
  predicate DistinctFirst(rows: Rows, selected: set<nat>)
    requires selected <= rows.Keys
  {
    forall i, j :: i in selected && j in selected && rows[i].name.0 == rows[j].name.0 ==> i == j
  }

  lemma {:induction false} OrderUnique(rows: Rows, a: seq<nat>, b: seq<nat>, selected: set<nat>)
    requires Orders(rows, a, selected) && Orders(rows, b, selected) && DistinctFirst(rows, selected)
    ensures a == b
  {
    if a != [] {
      assert a[0] in b && b[0] in a;
      FirstOfOrder(rows, a, selected, b[0]);
      FirstOfOrder(rows, b, selected, a[0]);
      TextAntisymmetric(rows[a[0]].name.0, rows[b[0]].name.0);
      OrderTail(rows, a, selected);
      OrderTail(rows, b, selected);
      OrderUnique(rows, a[1..], b[1..], selected - {a[0]});
      assert a == [a[0]] + a[1..] && b == [b[0]] + b[1..];
    }
  }

  lemma FirstOfOrder(rows: Rows, order: seq<nat>, selected: set<nat>, x: nat)
    requires Orders(rows, order, selected) && x in order
    ensures TextLeq(rows[order[0]].name.0, rows[x].name.0)
  {
    var p :| 0 <= p < |order| && order[p] == x;
    if p == 0 {
      TextTotal(rows[x].name.0, rows[x].name.0);
    }
  }

  /** A negative limit cuts nothing, and a negative offset skips nothing. */
  function PageOf(order: seq<nat>, limit: int, offset: int): seq<nat> {
    var from := if offset < 0 then 0 else offset;
    if limit < 0 then order[Min(from, |order|)..] else Slice(order, from, from + limit)
  }

  /** A page that a query of these selected rows may give. */
  ghost predicate MayAnswer(rows: Rows, selected: set<nat>, limit: int, offset: int, page: seq<nat>) {
    exists order :: Orders(rows, order, selected) && page == PageOf(order, limit, offset)
  }

  function Flat(pages: seq<seq<nat>>): seq<nat> {
    if pages == [] then [] else Flat(pages[..|pages| - 1]) + pages[|pages| - 1]
  }

  /** The offset after `n` pages. */
  function Offset(n: nat, limit: nat): nat {
    if n == 0 then 0 else Offset(n - 1, limit) + limit
  }

  /** Successive queries of one page size, until the total is covered; each may use an order of its own. */
  ghost predicate ReadsAll(rows: Rows, selected: set<nat>, limit: nat, pages: seq<seq<nat>>) {
    && (forall i :: 0 <= i < |pages| ==> MayAnswer(rows, selected, limit, Offset(i, limit), pages[i]))
    && |selected| <= Offset(|pages|, limit)
  }

  lemma {:induction false} FlatPrefix(order: seq<nat>, limit: nat, pages: seq<seq<nat>>)
    requires forall i :: 0 <= i < |pages| ==> pages[i] == PageOf(order, limit, Offset(i, limit))
    ensures Flat(pages) == order[..Min(Offset(|pages|, limit), |order|)]
  {
    if pages != [] {
      var init := pages[..|pages| - 1];
      FlatPrefix(order, limit, init);
      OnePageMore(order, limit, Offset(|init|, limit), Flat(init), pages[|init|]);
    }
  }

  lemma OnePageMore(order: seq<nat>, limit: nat, offset: nat, sofar: seq<nat>, page: seq<nat>)
    requires sofar == order[..Min(offset, |order|)] && page == PageOf(order, limit, offset)
    ensures sofar + page == order[..Min(offset + limit, |order|)]
  {
    PrefixAndSlice(order, offset, limit);
  }

  /** Names that all differ leave just one order, and the pages are its pages. */
  lemma DistinctReads(rows: Rows, selected: set<nat>, limit: nat, pages: seq<seq<nat>>)
    requires selected <= rows.Keys && ReadsAll(rows, selected, limit, pages) && DistinctFirst(rows, selected)
    ensures Orders(rows, Flat(pages), selected)
  {
    var order := OrderExists(rows, selected);
    OrderSize(rows, order, selected);
    forall i | 0 <= i < |pages| ensures pages[i] == PageOf(order, limit, Offset(i, limit)) {
      var own :| Orders(rows, own, selected) && pages[i] == PageOf(own, limit, Offset(i, limit));
      OrderUnique(rows, own, order, selected);
    }
    FlatPrefix(order, limit, pages);
    assert order[..|order|] == order;
  }

  /** Two rows of one name may change places. */
  lemma Swapped(rows: Rows, order: seq<nat>, selected: set<nat>, p: nat, q: nat)
    requires Orders(rows, order, selected) && p < q < |order| && rows[order[p]].name.0 == rows[order[q]].name.0
    ensures Orders(rows, order[p := order[q]][q := order[p]], selected)
  {
    var other := order[p := order[q]][q := order[p]];
    forall i ensures i in other <==> i in order {
      if i in order {
        var k :| 0 <= k < |order| && order[k] == i;
        assert other[if k == p then q else if k == q then p else k] == i;
      }
    }
    forall a, b | 0 <= a < b < |other| ensures NotAfter(rows, other[a], other[b]) {
      assert rows[other[a]].name.0 == rows[order[a]].name.0;
      assert rows[other[b]].name.0 == rows[order[b]].name.0;
      assert NotAfter(rows, order[a], order[b]);
    }
  }

  function Singles(order: seq<nat>): seq<seq<nat>> {
    seq(|order|, k requires 0 <= k < |order| => [order[k]])
  }

  lemma {:induction false} FlatSingles(order: seq<nat>)
    ensures Flat(Singles(order)) == order
  {
    if order != [] {
      var init := order[..|order| - 1];
      FlatSingles(init);
      assert Singles(order)[..|order| - 1] == Singles(init);
    }
  }

  lemma {:induction false} OffsetOfOne(n: nat, limit: nat)
    requires limit == 1
    ensures Offset(n, limit) == n
  {
    if n > 0 {
      OffsetOfOne(n - 1, limit);
    }
  }

  /** The orders of two rows of one name, mixed: every page is one of some order. */
  lemma MixedReads(rows: Rows, selected: set<nat>, order: seq<nat>, p: nat, q: nat, limit: nat)
    requires Orders(rows, order, selected) && p < q < |order| && rows[order[p]].name.0 == rows[order[q]].name.0
    requires limit == 1
    ensures ReadsAll(rows, selected, limit, Singles(order[q := order[p]]))
  {
    var mixed, other := order[q := order[p]], order[p := order[q]][q := order[p]];
    OrderSize(rows, order, selected);
    Swapped(rows, order, selected, p, q);
    OffsetOfOne(|mixed|, limit);
    forall k | 0 <= k < |mixed| ensures MayAnswer(rows, selected, limit, Offset(k, limit), Singles(mixed)[k]) {
      OffsetOfOne(k, limit);
      if k == q {
        assert Singles(mixed)[k] == PageOf(other, limit, k);
      } else {
        assert Singles(mixed)[k] == PageOf(order, limit, k);
      }
    }
  }

  /** With two rows of one name, SQL allows pages of one row that show one of them twice and the other not at all. */
  lemma TornPages(rows: Rows, selected: set<nat>, i: nat, j: nat, limit: nat) returns (pages: seq<seq<nat>>)
    requires selected <= rows.Keys && i in selected && j in selected && i != j
    requires rows[i].name.0 == rows[j].name.0 && limit == 1
    ensures ReadsAll(rows, selected, limit, pages) && !Orders(rows, Flat(pages), selected)
  {
    var order := OrderExists(rows, selected);
    var a :| 0 <= a < |order| && order[a] == i;
    var b :| 0 <= b < |order| && order[b] == j;
    var p, q := if a < b then a else b, if a < b then b else a;
    MixedReads(rows, selected, order, p, q, limit);
    var mixed := order[q := order[p]];
    pages := Singles(mixed);
    FlatSingles(mixed);
    assert mixed[p] == mixed[q];
  }

  ghost predicate AlwaysComplete(rows: Rows, selected: set<nat>) {
    forall limit: nat, pages :: ReadsAll(rows, selected, limit, pages) ==> Orders(rows, Flat(pages), selected)
  }

  /** Reading page by page always yields every selected row once, in order, if and only if no two share a name. */
  lemma PagesExact(rows: Rows, selected: set<nat>)
    requires selected <= rows.Keys
    ensures AlwaysComplete(rows, selected) <==> DistinctFirst(rows, selected)
  {
    if DistinctFirst(rows, selected) {
      forall limit: nat, pages | ReadsAll(rows, selected, limit, pages) ensures Orders(rows, Flat(pages), selected) {
        DistinctReads(rows, selected, limit, pages);
      }
    } else {
      var i, j :| i in selected && j in selected && rows[i].name.0 == rows[j].name.0 && i != j;
      var pages := TornPages(rows, selected, i, j, 1);
    }
  }

  /** Within one namespace no two listed rows share a name, so the pages of the list add up to it. */
  lemma NamespacePages(rows: Rows, namespace: string, state: Option<string>)
    requires Constrained(rows)
    ensures AlwaysComplete(rows, Listed(rows, Some(namespace), state))
  {
    var selected := Listed(rows, Some(namespace), state);
    forall i, j | i in selected && j in selected && rows[i].name.0 == rows[j].name.0 ensures i == j {
      ListExact(rows, Some(namespace), state, i);
      ListExact(rows, Some(namespace), state, j);
    }
    PagesExact(rows, selected);
  }
}
