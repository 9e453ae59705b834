/** Offset paging, and the history of a paged read: what the source held when each page was served. */
module Paging {
  datatype History<T> = Start | Then(before: History<T>, at: T)

  function Min(a: nat, b: nat): nat {
    if a <= b then a else b
  }

  /** A slice whose bounds are clamped to the list, as the source language slices. */
  function Slice<T>(s: seq<T>, lo: nat, hi: nat): seq<T>
    requires lo <= hi
  {
    s[Min(lo, |s|)..Min(hi, |s|)]
  }

  function Pages<T>(h: History<T>): nat {
    match h
    case Start => 0
    case Then(before, _) => Pages(before) + 1
  }

  /** The offset of the next page. */
  function Cursor<T>(h: History<T>, pageSize: nat): nat {
    match h
    case Start => 0
    case Then(before, _) => Cursor(before, pageSize) + pageSize
  }

  function First<T>(h: History<T>): T
    requires h.Then?
  {
    if h.before.Start? then h.at else First(h.before)
  }

  lemma {:induction false} CursorIsProduct<T>(h: History<T>, pageSize: nat)
    ensures Cursor(h, pageSize) == Pages(h) * pageSize
  {
    if h.Then? {
      CursorIsProduct(h.before, pageSize);
      assert Pages(h) * pageSize == Pages(h.before) * pageSize + pageSize;
    }
  }

  lemma SlicesJoin<T>(s: seq<T>, lo: nat, mid: nat, hi: nat)
    requires lo <= mid <= hi
    ensures Slice(s, lo, mid) + Slice(s, mid, hi) == Slice(s, lo, hi)
  {}

  lemma PrefixAndSlice<T>(s: seq<T>, offset: nat, length: nat)
    ensures s[..Min(offset, |s|)] + Slice(s, offset, offset + length) == s[..Min(offset + length, |s|)]
  {}
}
