/**
 * The pure part of both feed checkers: cut an RSS document into `<item>` elements, read
 * title, link and pubDate out of each, and keep the posts published today.
 *
 * The two variants differ only in how a captured field is normalised (trimmed, or
 * stripped of CDATA markup and then trimmed), so that step is a parameter here.
 */
module Feed {
  import opened Options
  import opened Text
  import opened Scan

  datatype Post = Post(title: string, link: string, pubDate: string)

  /** JavaScript's `Date`, kept abstract: `parse` is `new Date(text)` (None for an Invalid
      Date, whose time value is NaN), `day` maps a time value to the time value of its local
      midnight (`setHours(0, 0, 0, 0)`). */
  datatype Calendar = Calendar(parse: string -> Option<int>, day: int -> int)

  const ItemOpen: string := "<item>"
  const ItemClose: string := "</item>"
  const TitleOpen: string := "<title>"
  const TitleClose: string := "</title>"
  const LinkOpen: string := "<link>"
  const LinkClose: string := "</link>"
  const DateOpen: string := "<pubDate>"
  const DateClose: string := "</pubDate>"
  const CdataOpen: string := "<![CDATA["
  const CdataClose: string := "]]>"

  /** `xml.match(/<item>[\s\S]*?<\/item>/g) || []`. */
  function Items(xml: string): (r: seq<string>)
    ensures forall k :: 0 <= k < |r| ==> HasPrefix(r[k], ItemOpen) && HasSuffix(r[k], ItemClose)
  {
    MatchAll(xml, ItemOpen, ItemClose)
  }

  /** Every item starts with `<item>`, ends with `</item>` and holds no other `</item>`. */
  lemma ItemShape(xml: string, k: nat)
    requires k < |Items(xml)|
    ensures var item := Items(xml)[k];
      && HasPrefix(item, ItemOpen) && HasSuffix(item, ItemClose)
      && forall t :: OccursAt(item, ItemClose, t) ==> t == |item| - |ItemClose|
  {
    var spans := MatchSpans(xml, ItemOpen, ItemClose, 0);
    var i, j := spans[k].start, spans[k].closeAt;
    var item := Items(xml)[k];
    assert item == xml[i..j + |ItemClose|];
    MatchText(xml, ItemOpen, ItemClose, i, j);
    CloserNotInOpener(item);
  }

  /** A closer starts with "</", which the opener "<item>" does not contain, so no closer
      starts inside an opener. */
  lemma CloserNotInOpener(item: string)
    requires HasPrefix(item, ItemOpen)
    ensures forall t :: 0 <= t < |ItemOpen| ==> !OccursAt(item, ItemClose, t)
  {
    forall t | 0 <= t < |ItemOpen|
      ensures !OccursAt(item, ItemClose, t)
    {
      if t + |ItemClose| <= |item| {
        assert item[..|ItemOpen|][t] == item[t];
        if t == 0 {
          assert item[..|ItemOpen|][1] == item[1];
          assert item[t..t + |ItemClose|][1] == item[1] != ItemClose[1];
        } else {
          assert item[t..t + |ItemClose|][0] == item[t] != ItemClose[0];
        }
      }
    }
  }

  /** The items are the texts of disjoint spans of `xml`, in document order. */
  lemma ItemsInDocumentOrder(xml: string) returns (spans: seq<Span>)
    ensures |spans| == |Items(xml)|
    ensures forall k :: 0 <= k < |spans| ==>
      spans[k].closeAt + |ItemClose| <= |xml| && spans[k].start <= spans[k].closeAt &&
      Items(xml)[k] == xml[spans[k].start..spans[k].closeAt + |ItemClose|]
    ensures Disjoint(spans, |ItemClose|)
  {
    spans := MatchSpans(xml, ItemOpen, ItemClose, 0);
    SpansOrdered(xml, ItemOpen, ItemClose, 0);
  }

  /** A document without a literal `<item>` has no items: empty input, garbage, Atom. */
  lemma NoItemOpenerNoItems(xml: string)
    requires forall k :: !OccursAt(xml, ItemOpen, k)
    ensures Items(xml) == []
  {
  }

  /** `m = item.match(/<open>([\s\S]*?)<\/close>/)`, then `m ? norm(m[1]) : ""`. */
  function Field(item: string, open: string, close: string, norm: string -> string): (r: string)
    ensures (forall k :: !OccursAt(item, open, k)) ==> r == ""
  {
    match Capture(item, open, close)
    case Some(text) => norm(text)
    case None => ""
  }

  /** A field is `norm` of the text between the item's first opener and the first closer
      after it, and "" when no opener is followed by a closer. */
  lemma FieldIsCapture(item: string, open: string, close: string, norm: string -> string)
    returns (i: nat, j: nat)
    ensures (forall k :: 0 <= k ==> !MatchStartsAt(item, open, close, k)) ==>
      Field(item, open, close, norm) == ""
    ensures Capture(item, open, close).Some? ==>
      && LazyMatch(item, open, close, i, j)
      && (forall k :: 0 <= k < i ==> !OccursAt(item, open, k))
      && Field(item, open, close, norm) == norm(item[i + |open|..j])
  {
    i, j := 0, 0;
    if Capture(item, open, close).Some? {
      i, j := CaptureBetweenFirstOpenerAndCloser(item, open, close);
    }
  }

  function ToPost(item: string, norm: string -> string): (r: Post)
    ensures (forall k :: !OccursAt(item, TitleOpen, k)) ==> r.title == ""
    ensures (forall k :: !OccursAt(item, LinkOpen, k)) ==> r.link == ""
    ensures (forall k :: !OccursAt(item, DateOpen, k)) ==> r.pubDate == ""
  {
    Post(Field(item, TitleOpen, TitleClose, norm),
         Field(item, LinkOpen, LinkClose, norm),
         Field(item, DateOpen, DateClose, norm))
  }

  /** `items.map(...)`. */
  function ToPosts(items: seq<string>, norm: string -> string): (r: seq<Post>)
    ensures |r| == |items|
  {
    seq(|items|, k requires 0 <= k < |items| => ToPost(items[k], norm))
  }

  /** `Array.prototype.filter`. */
  function Filter<T(==)>(s: seq<T>, keep: T -> bool): (r: seq<T>)
    ensures |r| <= |s|
    ensures forall k :: 0 <= k < |r| ==> keep(r[k])
  {
    if s == [] then []
    else (if keep(s[0]) then [s[0]] else []) + Filter(s[1..], keep)
  }

  /** The survivors are exactly the elements of which `keep` holds. */
  lemma {:induction false} FilterMembers<T>(s: seq<T>, keep: T -> bool)
    ensures forall x :: x in Filter(s, keep) <==> x in s && keep(x)
  {
    if s != [] {
      FilterMembers(s[1..], keep);
      assert s == [s[0]] + s[1..];
    }
  }

  /** Filtering distributes over concatenation. With `FilterSingle` this pins the filter
      down: each element is kept, in place, exactly when `keep` holds of it. */
  lemma {:induction false} FilterAppend<T>(a: seq<T>, b: seq<T>, keep: T -> bool)
    ensures Filter(a + b, keep) == Filter(a, keep) + Filter(b, keep)
  {
    if a == [] {
      assert a + b == b;
    } else {
      assert (a + b)[1..] == a[1..] + b;
      FilterAppend(a[1..], b, keep);
    }
  }

  lemma FilterSingle<T>(x: T, keep: T -> bool)
    ensures Filter([x], keep) == if keep(x) then [x] else []
  {
    assert [x][1..] == [];
  }

  /** The element at position `k` survives, between the survivors before and after it,
      exactly when `keep` holds of it. */
  lemma FilterAt<T>(s: seq<T>, k: nat, keep: T -> bool)
    requires k < |s|
    ensures Filter(s, keep) ==
      Filter(s[..k], keep) + (if keep(s[k]) then [s[k]] else []) + Filter(s[k + 1..], keep)
  {
    SplitAt(s, k);
    FilterAround(s[..k], s[k], s[k + 1..], keep);
  }

  /** Written as a lemma of its own: stated inside `FilterAt`, the same equation sets the
      solver unfolding `Filter` on each side until it runs out of resource. */
  lemma SplitAt<T>(s: seq<T>, k: nat)
    requires k < |s|
    ensures s == s[..k] + ([s[k]] + s[k + 1..])
  {
  }

  lemma FilterAround<T>(pre: seq<T>, x: T, post: seq<T>, keep: T -> bool)
    ensures Filter(pre + ([x] + post), keep) ==
      Filter(pre, keep) + (if keep(x) then [x] else []) + Filter(post, keep)
  {
    FilterAppend(pre, [x] + post, keep);
    FilterAppend([x], post, keep);
    FilterSingle(x, keep);
  }

  /** `a` is `b` with some elements left out, the rest in their original order. */
  predicate IsSubsequence<T(==)>(a: seq<T>, b: seq<T>)
    decreases |b|
  {
    if a == [] then true
    else if b == [] then false
    else (a[0] == b[0] && IsSubsequence(a[1..], b[1..])) || IsSubsequence(a, b[1..])
  }

  lemma {:induction false} FilterIsSubsequence<T>(s: seq<T>, keep: T -> bool)
    ensures IsSubsequence(Filter(s, keep), s)
  {
    if s != [] {
      FilterIsSubsequence(s[1..], keep);
      var r := Filter(s, keep);
      if keep(s[0]) {
        assert r[0] == s[0] && r[1..] == Filter(s[1..], keep);
      } else {
        assert r == Filter(s[1..], keep);
      }
    }
  }

  lemma {:induction false} FilterIdempotent<T>(s: seq<T>, keep: T -> bool)
    ensures Filter(Filter(s, keep), keep) == Filter(s, keep)
  {
    if s != [] {
      FilterIdempotent(s[1..], keep);
      var r := Filter(s, keep);
      if keep(s[0]) {
        assert r[0] == s[0] && r[1..] == Filter(s[1..], keep);
        assert r == [s[0]] + Filter(s[1..], keep);
        assert r != [] && keep(r[0]);
        assert Filter(r, keep) == [r[0]] + Filter(r[1..], keep);
        assert Filter(r[1..], keep) == Filter(s[1..], keep);
      } else {
        assert r == Filter(s[1..], keep);
      }
    }
  }

  /** A post is new when its pubDate parses and falls on the same local day as `now`. An
      Invalid Date is NaN, which equals nothing. */
  predicate IsToday(cal: Calendar, now: int, p: Post)
    ensures IsToday(cal, now, p) ==> cal.parse(p.pubDate).Some?
    ensures cal.parse(p.pubDate).Some? ==>
      (IsToday(cal, now, p) <==> cal.day(cal.parse(p.pubDate).value) == cal.day(now))
  {
    match cal.parse(p.pubDate)
    case None => false
    case Some(t) => cal.day(t) == cal.day(now)
  }

  /** The whole pure pipeline: extract, map to posts, keep today's. `now` is read once. */
  function TodaysPosts(xml: string, norm: string -> string, cal: Calendar, now: int): (r: seq<Post>)
    ensures |r| <= |Items(xml)|
    ensures forall k :: 0 <= k < |r| ==> IsToday(cal, now, r[k])
  {
    Filter(ToPosts(Items(xml), norm), p => IsToday(cal, now, p))
  }

  /** When `norm` only yields texts of some kind, and "" is of that kind too, every field of
      every post kept is of that kind. */
  lemma FieldsNormalised(xml: string, norm: string -> string, cal: Calendar, now: int, ok: string -> bool)
    requires ok("") && forall x :: ok(norm(x))
    ensures forall k :: 0 <= k < |TodaysPosts(xml, norm, cal, now)| ==>
      var p := TodaysPosts(xml, norm, cal, now)[k];
      ok(p.title) && ok(p.link) && ok(p.pubDate)
  {
    var all := ToPosts(Items(xml), norm);
    var r := TodaysPosts(xml, norm, cal, now);
    FilterMembers(all, p => IsToday(cal, now, p));
    forall k | 0 <= k < |r|
      ensures ok(r[k].title) && ok(r[k].link) && ok(r[k].pubDate)
    {
      assert r[k] in all;
      var i :| 0 <= i < |all| && all[i] == r[k];
      PostFieldsNormalised(Items(xml)[i], norm, ok);
    }
  }

  lemma PostFieldsNormalised(item: string, norm: string -> string, ok: string -> bool)
    requires ok("") && forall x :: ok(norm(x))
    ensures var p := ToPost(item, norm); ok(p.title) && ok(p.link) && ok(p.pubDate)
  {
  }

  /** Today's posts are an order-preserving selection from the extracted posts, no more of
      them than there are items, containing exactly those whose date is today. */
  lemma TodaysPostsSelection(xml: string, norm: string -> string, cal: Calendar, now: int)
    ensures var all := ToPosts(Items(xml), norm);
      && IsSubsequence(TodaysPosts(xml, norm, cal, now), all)
      && |TodaysPosts(xml, norm, cal, now)| <= |Items(xml)|
      && forall p :: p in TodaysPosts(xml, norm, cal, now) <==> p in all && IsToday(cal, now, p)
  {
    FilterIsSubsequence(ToPosts(Items(xml), norm), p => IsToday(cal, now, p));
    FilterMembers(ToPosts(Items(xml), norm), p => IsToday(cal, now, p));
  }

  /** A post whose pubDate does not parse is never returned; since `new Date("")` is an
      Invalid Date, neither is a post without a pubDate. */
  lemma UndatedNeverKept(xml: string, norm: string -> string, cal: Calendar, now: int, p: Post)
    requires cal.parse("") == None
    requires p in TodaysPosts(xml, norm, cal, now)
    ensures cal.parse(p.pubDate).Some? && p.pubDate != ""
  {
    TodaysPostsSelection(xml, norm, cal, now);
  }

  /** Without a literal `<item>` the pipeline yields nothing. */
  lemma NoItemsNoPosts(xml: string, norm: string -> string, cal: Calendar, now: int)
    requires forall k :: !OccursAt(xml, ItemOpen, k)
    ensures TodaysPosts(xml, norm, cal, now) == []
  {
    NoItemOpenerNoItems(xml);
  }
}
