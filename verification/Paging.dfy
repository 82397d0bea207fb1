/** Paged and chunked reads of one snapshot (internal/api/filter.go:10-40,
    internal/api/topology.go:110-135, 286-323). */
module Paging {
  import opened Entities
  import opened Orders
  import opened Sorting
  import opened Journal
  import opened Database
  import opened Recovery

  /** Unpadded URL-safe base64, as any reversible text encoding. */
  datatype Codec = Codec(encode: string -> string, decode: string -> string)

  ghost predicate Lossless(c: Codec) {
    c.decode("") == "" && forall s :: c.decode(c.encode(s)) == s && (c.encode(s) == "" <==> s == "")
  }

  /** The page size: a hundred unless given, a thousand at most. */
  function PageSize(requested: Option<nat>): (size: nat)
    ensures requested.None? || requested.value == 0 ==> size == 100
    ensures requested.Some? && 1 <= requested.value <= 1000 ==> size == requested.value
    ensures requested.Some? && requested.value > 1000 ==> size == 1000
  {
    if requested.None? || requested.value == 0 then 100
    else if requested.value > 1000 then 1000
    else requested.value
  }

  // ---------------------------------------------------------------- selecting

  function Filter<T>(items: seq<T>, keep: T -> bool): (r: seq<T>) {
    if items == [] then []
    else if keep(items[0]) then [items[0]] + Filter(items[1..], keep)
    else Filter(items[1..], keep)
  }

  lemma {:induction false} FilterConcat<T>(a: seq<T>, b: seq<T>, keep: T -> bool)
    ensures Filter(a + b, keep) == Filter(a, keep) + Filter(b, keep)
  {
    if a == [] {
      assert a + b == b;
    } else {
      assert (a + b)[1..] == a[1..] + b;
      FilterConcat(a[1..], b, keep);
    }
  }

  lemma {:induction false} FilterSize<T>(items: seq<T>, keep: T -> bool)
    ensures |Filter(items, keep)| <= |items|
    ensures |Filter(items, keep)| == |items| <==> forall i | 0 <= i < |items| :: keep(items[i])
    ensures (forall i | 0 <= i < |items| :: keep(items[i])) ==> Filter(items, keep) == items
  {
    if items != [] {
      FilterSize(items[1..], keep);
      assert items == [items[0]] + items[1..];
      assert forall i | 0 < i < |items| :: items[i] == items[1..][i - 1];
    }
  }

  ghost predicate Ascending<T>(items: seq<T>, id: T -> string) {
    forall i, j | 0 <= i < j < |items| :: StrLess(id(items[i]), id(items[j]))
  }

  /** The items that match and come after an id. */
  function Selected<T>(items: seq<T>, id: T -> string, keep: T -> bool, after: string): (r: seq<T>) {
    if items == [] then []
    else if StrLess(after, id(items[0])) && keep(items[0]) then [items[0]] + Selected(items[1..], id, keep, after)
    else Selected(items[1..], id, keep, after)
  }

  lemma {:induction false} AllAfter<T>(items: seq<T>, id: T -> string, keep: T -> bool, after: string)
    requires forall i | 0 <= i < |items| :: StrLess(after, id(items[i]))
    ensures Selected(items, id, keep, after) == Filter(items, keep)
  {
    if items != [] {
      assert forall i | 0 <= i < |items[1..]| :: items[1..][i] == items[i + 1];
      AllAfter(items[1..], id, keep, after);
    }
  }

  lemma {:induction false} SelectedFrom<T>(items: seq<T>, id: T -> string, keep: T -> bool, after: string, x: T)
    requires x in Selected(items, id, keep, after)
    ensures x in items && StrLess(after, id(x))
  {
    if items != [] && !(StrLess(after, id(items[0])) && keep(items[0]) && x == items[0]) {
      SelectedFrom(items[1..], id, keep, after, x);
    }
  }

  lemma TailAscending<T>(items: seq<T>, id: T -> string)
    requires items != [] && Ascending(items, id)
    ensures Ascending(items[1..], id) && forall x | x in items[1..] :: StrLess(id(items[0]), id(x))
  {
    forall i, j | 0 <= i < j < |items[1..]| ensures StrLess(id(items[1..][i]), id(items[1..][j])) {
      assert items[1..][i] == items[i + 1] && items[1..][j] == items[j + 1];
    }
    forall x | x in items[1..] ensures StrLess(id(items[0]), id(x)) {
      var i :| 0 <= i < |items[1..]| && items[1..][i] == x;
      assert items[i + 1] == x;
    }
  }

  /** Resuming after the k-th selected item selects exactly the rest. */
  lemma {:induction false} Resume<T>(items: seq<T>, id: T -> string, keep: T -> bool, after: string, k: nat)
    requires Ascending(items, id) && 0 < k <= |Selected(items, id, keep, after)|
    ensures var m := Selected(items, id, keep, after);
            Selected(items, id, keep, id(m[k - 1])) == m[k..]
    decreases |items|, 0
  {
    var h, rest := items[0], items[1..];
    TailAscending(items, id);
    assert items == [h] + rest;
    if StrLess(after, id(h)) && keep(h) {
      ResumeKept(h, rest, id, keep, after, k);
    } else {
      SkipHead(h, rest, id, keep, after, k);
    }
  }

  /** The same when the first item is selected. */
  lemma ResumeKept<T>(h: T, rest: seq<T>, id: T -> string, keep: T -> bool, after: string, k: nat)
    requires Ascending(rest, id) && (forall x | x in rest :: StrLess(id(h), id(x)))
    requires StrLess(after, id(h)) && keep(h) && 0 < k <= 1 + |Selected(rest, id, keep, after)|
    ensures var m := [h] + Selected(rest, id, keep, after);
            Selected([h] + rest, id, keep, id(m[k - 1])) == m[k..]
    decreases |rest|, 2
  {
    var m := Selected(rest, id, keep, after);
    assert ([h] + rest)[1..] == rest;
    if k == 1 {
      StrIrreflexive(id(h));
      AfterHead(h, rest, id, keep, after);
      assert ([h] + m)[1..] == m;
    } else {
      SkipHead(h, rest, id, keep, after, k - 1);
      assert ([h] + m)[k..] == m[k - 1..] && ([h] + m)[k - 1] == m[k - 2];
    }
  }

  lemma AfterHead<T>(h: T, rest: seq<T>, id: T -> string, keep: T -> bool, after: string)
    requires StrLess(after, id(h)) && forall x | x in rest :: StrLess(id(h), id(x))
    ensures Selected(rest, id, keep, id(h)) == Selected(rest, id, keep, after)
  {
    forall i | 0 <= i < |rest| ensures StrLess(id(h), id(rest[i])) && StrLess(after, id(rest[i])) {
      assert rest[i] in rest;
      StrLessTrans(after, id(h), id(rest[i]));
    }
    AllAfter(rest, id, keep, id(h));
    AllAfter(rest, id, keep, after);
  }

  lemma SkipHead<T>(h: T, rest: seq<T>, id: T -> string, keep: T -> bool, after: string, k: nat)
    requires Ascending(rest, id) && (forall x | x in rest :: StrLess(id(h), id(x)))
    requires 0 < k <= |Selected(rest, id, keep, after)|
    ensures var m := Selected(rest, id, keep, after);
            Selected([h] + rest, id, keep, id(m[k - 1])) == m[k..]
    decreases |rest|, 1
  {
    var m := Selected(rest, id, keep, after);
    SelectedFrom(rest, id, keep, after, m[k - 1]);
    StrLessAsym(id(h), id(m[k - 1]));
    Resume(rest, id, keep, after, k);
    assert ([h] + rest)[1..] == rest;
  }

  // ---------------------------------------------------------------- one page

  datatype Page<T> = Page(items: seq<T>, token: string)

  /** The page that starts after an id: the first `size` selected items, and a token for the last of
      them when there are more. */
  function PageAfter<T>(items: seq<T>, id: T -> string, keep: T -> bool, size: nat, after: string, c: Codec): Page<T>
    requires size > 0
  {
    var m := Selected(items, id, keep, after);
    if |m| <= size then Page(m, "") else Page(m[..size], c.encode(id(m[size - 1])))
  }

  /** A page holds the first matching items after its start, as many as fit, and has a token exactly when
      more match; the token stands for the last of them. */
  lemma PageExactly<T>(items: seq<T>, id: T -> string, keep: T -> bool, size: nat, after: string, c: Codec)
    requires Lossless(c) && size > 0 && forall x | x in items :: id(x) != ""
    ensures var m, page := Selected(items, id, keep, after), PageAfter(items, id, keep, size, after, c);
            && |page.items| == Min(|m|, size) && page.items <= m
            && (page.token != "" <==> |m| > size)
            && (|m| > size ==> c.decode(page.token) == id(page.items[size - 1]))
  {
    var m := Selected(items, id, keep, after);
    if |m| > size { SelectedFrom(items, id, keep, after, m[size - 1]); }
  }

  /** ListNodes, ListLinks and ListPrefixes: one page of a listing. */
  method ListPage<T>(items: seq<T>, id: T -> string, keep: T -> bool, size: nat, token: string, c: Codec)
    returns (page: Page<T>)
    requires size > 0
    ensures page == PageAfter(items, id, keep, size, c.decode(token), c)
  {
    var after := c.decode(token);
    var out: seq<T> := [];
    ghost var all := Selected(items, id, keep, after);
    var i := 0;
    while i < |items|
      invariant 0 <= i <= |items| && |out| <= size
      invariant out + Selected(items[i..], id, keep, after) == all
    {
      assert items[i..][1..] == items[i + 1..];
      if !StrLess(after, id(items[i])) || !keep(items[i]) {
        i := i + 1;
        continue;
      }
      assert out + ([items[i]] + Selected(items[i + 1..], id, keep, after))
          == out + [items[i]] + Selected(items[i + 1..], id, keep, after);
      out := out + [items[i]];
      i := i + 1;
      if |out| > size { break; }
    }
    assert all[..|out|] == out;
    var more := |out| > size;
    if more { out := out[..size]; }
    var next := "";
    if |out| > 0 && more { next := c.encode(id(out[|out| - 1])); }
    page := Page(out, next);
  }

  // ---------------------------------------------------------------- following the tokens

  function Concat<T>(pages: seq<seq<T>>): (r: seq<T>) {
    if pages == [] then [] else Concat(pages[..|pages| - 1]) + pages[|pages| - 1]
  }

  lemma ConcatSnoc<T>(pages: seq<seq<T>>, p: seq<T>)
    ensures Concat(pages + [p]) == Concat(pages) + p
  {
    assert (pages + [p])[..|pages|] == pages;
  }

  /** A client that follows page tokens at one revision until there are none: for every page size it
      ends, and the pages add up to every matching item, once each and in id order. */
  method FollowPages<T>(items: seq<T>, id: T -> string, keep: T -> bool, requested: Option<nat>, c: Codec)
    returns (pages: seq<seq<T>>)
    requires Lossless(c) && Ascending(items, id) && forall x | x in items :: id(x) != ""
    ensures Concat(pages) == Filter(items, keep)
    ensures forall p | p in pages :: |p| <= PageSize(requested)
    ensures forall i | 0 <= i < |pages| - 1 :: |pages[i]| == PageSize(requested)
    ensures pages != [] && (|pages| > 1 ==> pages[|pages| - 1] != [])
  {
    var size := PageSize(requested);
    pages := [];
    var token := "";
    forall i | 0 <= i < |items| ensures StrLess("", id(items[i])) {
      assert items[i] in items;
    }
    AllAfter(items, id, keep, "");
    ghost var left := Selected(items, id, keep, "");
    assert Concat(pages) + left == Filter(items, keep);
    while true
      invariant left == Selected(items, id, keep, c.decode(token))
      invariant Concat(pages) + left == Filter(items, keep)
      invariant forall p | p in pages :: |p| == size
      invariant pages != [] ==> left != []
      decreases |left|
    {
      var page := ListPage(items, id, keep, size, token, c);
      AddPage(pages, left, Min(size, |left|));
      pages := pages + [page.items];
      if |left| > size { NextPage(items, id, keep, size, token, c); }
      token, left := page.token, left[Min(size, |left|)..];
      if token == "" { break; }
    }
  }

  lemma AddPage<T>(pages: seq<seq<T>>, left: seq<T>, n: nat)
    requires n <= |left|
    ensures Concat(pages + [left[..n]]) + left[n..] == Concat(pages) + left
  {
    ConcatSnoc(pages, left[..n]);
    assert left == left[..n] + left[n..];
  }

  /** The token of a full page resumes right after it. */
  lemma NextPage<T>(items: seq<T>, id: T -> string, keep: T -> bool, size: nat, token: string, c: Codec)
    requires Lossless(c) && Ascending(items, id) && (forall x | x in items :: id(x) != "") && size > 0
    requires |Selected(items, id, keep, c.decode(token))| > size
    ensures var m := Selected(items, id, keep, c.decode(token));
            var page := PageAfter(items, id, keep, size, c.decode(token), c);
            page.token != "" && Selected(items, id, keep, c.decode(page.token)) == m[size..]
  {
    var m := Selected(items, id, keep, c.decode(token));
    SelectedFrom(items, id, keep, c.decode(token), m[size - 1]);
    Resume(items, id, keep, c.decode(token), size);
  }

  // ---------------------------------------------------------------- paging while the listing changes

  /** One page of a browse without a fixed revision: the listing it was cut from, and where it starts. */
  datatype Reading<T> = Reading(list: seq<T>, after: string, page: Page<T>)

  /** The page was cut from the listing. */
  ghost predicate CutFrom<T>(r: Reading<T>, id: T -> string, keep: T -> bool, size: nat, c: Codec)
    requires size > 0
  {
    r.page == PageAfter(r.list, id, keep, size, r.after, c)
  }

  /** The next page starts where the token of this one says. */
  ghost predicate Continues<T>(r: Reading<T>, next: Reading<T>, c: Codec) {
    r.page.token != "" && next.after == c.decode(r.page.token)
  }

  /** Pages that follow one another, each cut from a listing of its own. */
  ghost predicate Follow<T>(rs: seq<Reading<T>>, id: T -> string, keep: T -> bool, size: nat, c: Codec)
    requires size > 0
  {
    && (rs != [] ==> rs[0].after == c.decode(""))
    && (forall i | 0 <= i < |rs| :: CutFrom(rs[i], id, keep, size, c))
    && (forall i | 0 < i < |rs| :: Continues(rs[i - 1], rs[i], c))
  }

  ghost predicate Ordered<T(!new)>(items: seq<T>, id: T -> string) {
    Ascending(items, id) && forall x | x in items :: id(x) != ""
  }

  ghost predicate AllOrdered<T(!new)>(rs: seq<Reading<T>>, id: T -> string) {
    forall i | 0 <= i < |rs| :: Ordered(rs[i].list, id)
  }

  /** The items of the first n pages. */
  function ItemsOf<T>(rs: seq<Reading<T>>, n: nat): seq<T>
    requires n <= |rs|
  {
    if n == 0 then [] else ItemsOf(rs, n - 1) + rs[n - 1].page.items
  }

  lemma {:induction false} SelectedAscending<T>(items: seq<T>, id: T -> string, keep: T -> bool, after: string)
    requires Ascending(items, id)
    ensures Ascending(Selected(items, id, keep, after), id)
  {
    if items != [] {
      TailAscending(items, id);
      SelectedAscending(items[1..], id, keep, after);
      var r := Selected(items[1..], id, keep, after);
      forall j | 0 <= j < |r| ensures StrLess(id(items[0]), id(r[j])) {
        SelectedFrom(items[1..], id, keep, after, r[j]);
      }
    }
  }

  lemma {:induction false} SelectedHas<T>(items: seq<T>, id: T -> string, keep: T -> bool, after: string, x: T)
    requires x in items && StrLess(after, id(x)) && keep(x)
    ensures x in Selected(items, id, keep, after)
  {
    if x != items[0] {
      assert items == [items[0]] + items[1..];
      SelectedHas(items[1..], id, keep, after, x);
    }
  }

  lemma FrontAscends<T>(m: seq<T>, id: T -> string, n: nat, after: string)
    requires Ascending(m, id) && n <= |m| && forall x | x in m :: StrLess(after, id(x))
    ensures Ascending(m[..n], id) && forall x | x in m[..n] :: StrLess(after, id(x))
  {
    assert forall x | x in m[..n] :: x in m;
  }

  /** A page ascends from where it starts, and its token, if any, is its last id. */
  ghost predicate AscendsFrom<T(!new)>(page: Page<T>, id: T -> string, after: string, c: Codec) {
    && Ascending(page.items, id)
    && (forall x | x in page.items :: StrLess(after, id(x)))
    && (page.token != "" ==> page.items != [] && c.decode(page.token) == id(page.items[|page.items| - 1]))
  }

  lemma PageAscends<T(!new)>(items: seq<T>, id: T -> string, keep: T -> bool, size: nat, after: string, c: Codec)
    requires Lossless(c) && Ascending(items, id) && size > 0
    ensures AscendsFrom(PageAfter(items, id, keep, size, after, c), id, after, c)
  {
    var m := Selected(items, id, keep, after);
    SelectedAscending(items, id, keep, after);
    forall x | x in m ensures StrLess(after, id(x)) {
      SelectedFrom(items, id, keep, after, x);
    }
    FrontAscends(m, id, Min(|m|, size), after);
    assert m[..|m|] == m;
  }

  /** Everything up to id `bound`. */
  ghost predicate UpTo<T(!new)>(items: seq<T>, id: T -> string, bound: string) {
    forall x | x in items :: StrAtMost(id(x), bound)
  }

  lemma AscendingConcat<T(!new)>(a: seq<T>, b: seq<T>, id: T -> string, bound: string)
    requires Ascending(a, id) && Ascending(b, id) && UpTo(a, id, bound)
    requires forall x | x in b :: StrLess(bound, id(x))
    ensures Ascending(a + b, id)
  {
    forall i, j | 0 <= i < |a| && 0 <= j < |b| ensures StrLess(id(a[i]), id(b[j])) {
      assert a[i] in a && b[j] in b;
      StrLessTotal(id(a[i]), bound);
      if id(a[i]) != bound { StrLessTrans(id(a[i]), bound, id(b[j])); }
    }
  }

  lemma UpToLast<T(!new)>(items: seq<T>, id: T -> string)
    requires Ascending(items, id) && items != []
    ensures UpTo(items, id, id(items[|items| - 1]))
  {
    var last := |items| - 1;
    forall x | x in items ensures StrAtMost(id(x), id(items[last])) {
      var i :| 0 <= i < |items| && items[i] == x;
      if i < last { StrLessAsym(id(items[i]), id(items[last])); } else { StrIrreflexive(id(x)); }
    }
  }

  /** One more page after what has been listed. */
  lemma PageExtends<T(!new)>(a: seq<T>, b: seq<T>, id: T -> string, bound: string)
    requires Ascending(a, id) && Ascending(b, id) && (a != [] ==> UpTo(a, id, bound))
    requires forall x | x in b :: StrLess(bound, id(x))
    ensures Ascending(a + b, id)
    ensures b != [] ==> UpTo(a + b, id, id(b[|b| - 1]))
  {
    if a == [] { assert a + b == b; } else { AscendingConcat(a, b, id, bound); }
    if b != [] {
      assert (a + b)[|a + b| - 1] == b[|b| - 1];
      UpToLast(a + b, id);
    }
  }

  lemma ReadAscends<T(!new)>(r: Reading<T>, id: T -> string, keep: T -> bool, size: nat, c: Codec)
    requires Lossless(c) && size > 0 && Ordered(r.list, id) && CutFrom(r, id, keep, size, c)
    ensures AscendsFrom(r.page, id, r.after, c)
  {
    PageAscends(r.list, id, keep, size, r.after, c);
  }

  /** Whatever changes between the pages, the ids ascend strictly from page to page, so that none is
      listed twice. */
  lemma {:induction false} LiveAscends<T(!new)>(rs: seq<Reading<T>>, id: T -> string, keep: T -> bool, size: nat,
                                                c: Codec, n: nat)
    requires Lossless(c) && size > 0 && AllOrdered(rs, id) && Follow(rs, id, keep, size, c) && n <= |rs|
    ensures Ascending(ItemsOf(rs, n), id)
    ensures 0 < n < |rs| ==> UpTo(ItemsOf(rs, n), id, rs[n].after)
  {
    if n > 0 {
      var r := rs[n - 1];
      LiveAscends(rs, id, keep, size, c, n - 1);
      assert Ordered(r.list, id);
      ReadAscends(r, id, keep, size, c);
      PageExtends(ItemsOf(rs, n - 1), r.page.items, id, r.after);
      if n < |rs| { assert Continues(rs[n - 1], rs[n], c); }
    }
  }

  /** An item with this id matches in the listing. */
  ghost predicate Matching<T(!new)>(items: seq<T>, id: T -> string, keep: T -> bool, s: string) {
    exists x :: x in items && id(x) == s && keep(x)
  }

  ghost predicate HasId<T(!new)>(items: seq<T>, id: T -> string, s: string) {
    exists x :: x in items && id(x) == s
  }

  lemma FrontOrBeyond<T>(m: seq<T>, id: T -> string, size: nat, x: T)
    requires Ascending(m, id) && x in m && 0 < size < |m|
    ensures x in m[..size] || StrLess(id(m[size - 1]), id(x))
  {
    var k :| 0 <= k < |m| && m[k] == x;
    if k < size { assert m[..size][k] == x; }
  }

  lemma ReadHasOrPasses<T(!new)>(r: Reading<T>, id: T -> string, keep: T -> bool, size: nat, c: Codec, s: string)
    requires Lossless(c) && size > 0 && Ordered(r.list, id) && CutFrom(r, id, keep, size, c)
    requires Matching(r.list, id, keep, s) && StrLess(r.after, s)
    ensures HasId(r.page.items, id, s) || (r.page.token != "" && StrLess(c.decode(r.page.token), s))
  {
    var m := Selected(r.list, id, keep, r.after);
    var x :| x in r.list && id(x) == s && keep(x);
    SelectedHas(r.list, id, keep, r.after, x);
    if |m| > size {
      SelectedAscending(r.list, id, keep, r.after);
      FrontOrBeyond(m, id, size, x);
      SelectedFrom(r.list, id, keep, r.after, m[size - 1]);
    }
  }

  lemma {:induction false} LiveFrom<T(!new)>(rs: seq<Reading<T>>, id: T -> string, keep: T -> bool, size: nat,
                                             c: Codec, i: nat, s: string) returns (j: nat)
    requires Lossless(c) && size > 0 && AllOrdered(rs, id) && Follow(rs, id, keep, size, c)
    requires i < |rs| && rs[|rs| - 1].page.token == "" && StrLess(rs[i].after, s)
    requires forall k | 0 <= k < |rs| :: Matching(rs[k].list, id, keep, s)
    ensures j < |rs| && HasId(rs[j].page.items, id, s)
    decreases |rs| - i
  {
    assert Ordered(rs[i].list, id) && Matching(rs[i].list, id, keep, s);
    ReadHasOrPasses(rs[i], id, keep, size, c, s);
    if HasId(rs[i].page.items, id, s) {
      j := i;
    } else {
      assert Continues(rs[i], rs[i + 1], c);
      j := LiveFrom(rs, id, keep, size, c, i + 1, s);
    }
  }

  lemma {:induction false} PageListed<T(!new)>(rs: seq<Reading<T>>, n: nat, j: nat, id: T -> string, s: string)
    requires j < n <= |rs| && HasId(rs[j].page.items, id, s)
    ensures HasId(ItemsOf(rs, n), id, s)
  {
    if j == n - 1 {
      var x :| x in rs[j].page.items && id(x) == s;
      assert x in ItemsOf(rs, n);
    } else {
      PageListed(rs, n - 1, j, id, s);
      var x :| x in ItemsOf(rs, n - 1) && id(x) == s;
      assert x in ItemsOf(rs, n);
    }
  }

  /** And an id that matches in every listing read is listed once the tokens end. */
  lemma LiveComplete<T(!new)>(rs: seq<Reading<T>>, id: T -> string, keep: T -> bool, size: nat, c: Codec, s: string)
    requires Lossless(c) && size > 0 && AllOrdered(rs, id) && Follow(rs, id, keep, size, c)
    requires rs != [] && rs[|rs| - 1].page.token == ""
    requires forall k | 0 <= k < |rs| :: Matching(rs[k].list, id, keep, s)
    ensures HasId(ItemsOf(rs, |rs|), id, s)
  {
    assert Matching(rs[0].list, id, keep, s) && Ordered(rs[0].list, id);
    assert s != "";
    var j := LiveFrom(rs, id, keep, size, c, 0, s);
    PageListed(rs, |rs|, j, id, s);
  }

  lemma FollowMore<T>(rs: seq<Reading<T>>, r: Reading<T>, id: T -> string, keep: T -> bool, size: nat, c: Codec)
    requires size > 0 && Follow(rs, id, keep, size, c) && CutFrom(r, id, keep, size, c)
    requires if rs == [] then r.after == c.decode("") else Continues(rs[|rs| - 1], r, c)
    ensures Follow(rs + [r], id, keep, size, c)
  {
    var more := rs + [r];
    forall i | 0 < i < |more| ensures Continues(more[i - 1], more[i], c) {
      if i < |rs| { assert Continues(rs[i - 1], rs[i], c); }
    }
  }

  /** A client that follows the tokens through the listings it meets, until there are none. */
  method FollowLive<T>(lists: seq<seq<T>>, id: T -> string, keep: T -> bool, requested: Option<nat>, c: Codec)
    returns (rs: seq<Reading<T>>)
    requires Lossless(c)
    ensures Follow(rs, id, keep, PageSize(requested), c)
    ensures |rs| <= |lists| && forall i | 0 <= i < |rs| :: rs[i].list == lists[i]
    ensures |rs| == |lists| || (rs != [] && rs[|rs| - 1].page.token == "")
  {
    var size := PageSize(requested);
    rs := [];
    var token := "";
    for i := 0 to |lists|
      invariant |rs| == i && Follow(rs, id, keep, size, c)
      invariant forall k | 0 <= k < i :: rs[k].list == lists[k]
      invariant if i == 0 then token == "" else token == rs[i - 1].page.token != ""
    {
      var page := ListPage(lists[i], id, keep, size, token, c);
      var r := Reading(lists[i], c.decode(token), page);
      FollowMore(rs, r, id, keep, size, c);
      rs, token := rs + [r], page.token;
      if token == "" { return; }
    }
  }

  // ---------------------------------------------------------------- listing a snapshot

  predicate IdLess(a: Entity, b: Entity) {
    StrLess(OwnId(a), OwnId(b))
  }

  /** The entities of one kind, once each, in id order: what a snapshot lists. */
  ghost predicate IsListing(items: seq<Entity>, mem: Mem, kind: Kind) {
    && Ascending(items, OwnId)
    && forall e :: e in items <==> KindOf(e) == kind && Get(mem, OwnKey(e)) == Some(e)
  }

  lemma ListingDistinct(items: seq<Entity>)
    requires Ascending(items, OwnId)
    ensures Distinct(items) && Sorted(IdLess, items) && Separates(IdLess, Elements(items))
    ensures forall a, b | a in items && b in items && OwnId(a) == OwnId(b) :: a == b
  {
    forall i, j | 0 <= i < j < |items| ensures OwnId(items[i]) != OwnId(items[j]) && !IdLess(items[j], items[i]) {
      StrLessAsym(OwnId(items[i]), OwnId(items[j]));
    }
    forall a, b | a in items && b in items && OwnId(a) == OwnId(b) ensures a == b {
      var i :| 0 <= i < |items| && items[i] == a;
      var j :| 0 <= j < |items| && items[j] == b;
    }
    forall a, b | a in items && b in items && a != b ensures IdLess(a, b) || IdLess(b, a) {
      StrLessTotal(OwnId(a), OwnId(b));
    }
  }

  /** There is one such listing. */
  lemma ListingUnique(a: seq<Entity>, b: seq<Entity>, mem: Mem, kind: Kind)
    requires IsListing(a, mem, kind) && IsListing(b, mem, kind)
    ensures a == b
  {
    ListingDistinct(a);
    ListingDistinct(b);
    assert Elements(a) == Elements(b);
    DistinctBag(a, b);
    SortedUnique(IdLess, a, b);
  }

  lemma EntitiesOrdered(values: set<Entity>)
    ensures WeakOrder(IdLess, values)
  {
    forall a, b | a in values && b in values && IdLess(a, b) ensures !IdLess(b, a) {
      StrLessAsym(OwnId(a), OwnId(b));
    }
    forall a, b, c | a in values && b in values && c in values && !IdLess(b, a) && !IdLess(c, b) ensures !IdLess(c, a) {
      StrAtMostTrans(OwnId(a), OwnId(b), OwnId(c));
    }
  }

  lemma SortedAscending(items: seq<Entity>)
    requires Sorted(IdLess, items) && Distinct(items)
    requires forall a, b | a in items && b in items && OwnId(a) == OwnId(b) :: a == b
    ensures Ascending(items, OwnId)
  {
    forall i, j | 0 <= i < j < |items| ensures StrLess(OwnId(items[i]), OwnId(items[j])) {
      assert !IdLess(items[j], items[i]) && items[i] != items[j];
      StrLessTotal(OwnId(items[i]), OwnId(items[j]));
      assert items[i] in items && items[j] in items;
    }
  }

  /** Collects the entities of one kind in any order and sorts them (store.go:360-379). */
  method ListKind(mem: Mem, kind: Kind) returns (items: seq<Entity>)
    requires OwnKeyed(mem)
    ensures IsListing(items, mem, kind)
  {
    var left := mem.Keys;
    var found: seq<Entity> := [];
    while left != {}
      invariant left <= mem.Keys && Distinct(found)
      invariant forall e :: e in found <==> KindOf(e) == kind && OwnKey(e) !in left && Get(mem, OwnKey(e)) == Some(e)
      decreases left
    {
      var k :| k in left;
      left := left - {k};
      if k.kind == kind {
        found := found + [mem[k]];
      }
    }
    EntitiesOrdered(Elements(found));
    SortSorts(IdLess, found);
    SortPermutes(IdLess, found);
    DistinctCounts(found);
    items := Sort(IdLess, found);
    DistinctCounts(items);
    assert forall e :: e in items <==> e in Elements(found);
    SortedAscending(items);
  }

  lemma {:induction false} FilterMembers<T>(items: seq<T>, keep: T -> bool)
    ensures forall x :: x in Filter(items, keep) <==> x in items && keep(x)
  {
    if items != [] {
      assert items == [items[0]] + items[1..];
      FilterMembers(items[1..], keep);
    }
  }

  lemma FilterFrom<T>(items: seq<T>, keep: T -> bool, x: T)
    requires x in Filter(items, keep)
    ensures x in items && keep(x)
  {
    FilterMembers(items, keep);
  }

  lemma {:induction false} FilterAscending<T>(items: seq<T>, id: T -> string, keep: T -> bool)
    requires Ascending(items, id)
    ensures Ascending(Filter(items, keep), id)
  {
    if items != [] {
      TailAscending(items, id);
      FilterAscending(items[1..], id, keep);
      var r := Filter(items[1..], keep);
      forall j | 0 <= j < |r| ensures StrLess(id(items[0]), id(r[j])) {
        FilterFrom(items[1..], keep, r[j]);
      }
    }
  }

  /** Browsing one kind of entity page by page: every stored entity that matches, once, in id order. */
  method Browse(mem: Mem, kind: Kind, keep: Entity -> bool, requested: Option<nat>, c: Codec)
    returns (pages: seq<seq<Entity>>)
    requires OwnKeyed(mem) && Lossless(c) && forall k | k in mem :: k.id != ""
    ensures Ascending(Concat(pages), OwnId)
    ensures forall e :: e in Concat(pages) <==> KindOf(e) == kind && Get(mem, OwnKey(e)) == Some(e) && keep(e)
  {
    var items := ListKind(mem, kind);
    forall e | e in items ensures OwnId(e) != "" {
      assert OwnKey(e) in mem;
    }
    pages := FollowPages(items, OwnId, keep, requested, c);
    FilterMembers(items, keep);
    FilterAscending(items, OwnId, keep);
  }
}
