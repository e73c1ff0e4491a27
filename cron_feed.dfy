/**
 * The cron job that checks the feeds kept in the registry (valtown/rss-sub): fields are
 * stripped of CDATA markup before trimming, and the feed list is read from the registry
 * table at the start of each run.
 */
module CronFeed {
  import opened Options
  import opened Text
  import opened Scan
  import opened Feed
  import opened Notify
  import opened FeedRegistry

  /** `text.replace(/^<!\[CDATA\[|\]\]>$/g, "")`. The global search finds the opener only at
      index 0 and the closer only at the very end, after the opener (the two cannot overlap),
      so this drops a leading opener, then a trailing closer of what is left. */
  function StripMarkers(s: string): (r: string)
    ensures |r| <= |s|
    ensures !HasPrefix(s, CdataOpen) && !HasSuffix(s, CdataClose) ==> r == s
    ensures HasPrefix(s, CdataOpen) && HasSuffix(s, CdataClose) && |CdataOpen| + |CdataClose| <= |s| ==>
      r == s[|CdataOpen|..|s| - |CdataClose|]
  {
    var rest := if HasPrefix(s, CdataOpen) then s[|CdataOpen|..] else s;
    if HasSuffix(rest, CdataClose) then rest[..|rest| - |CdataClose|] else rest
  }

  /** `stripCDATA`: the markers are removed first, then the result is trimmed. */
  function StripCDATA(s: string): (r: string)
    ensures Trimmed(r)
    ensures !HasPrefix(s, CdataOpen) && !HasSuffix(s, CdataClose) ==> r == Trim(s)
    ensures HasPrefix(s, CdataOpen) && HasSuffix(s, CdataClose) && |CdataOpen| + |CdataClose| <= |s| ==>
      r == Trim(s[|CdataOpen|..|s| - |CdataClose|])
  {
    var m := StripMarkers(s);
    TrimOfMarkers(s, m);
    Trim(m)
  }

  /** `StripCDATA`'s contract from `StripMarkers`' one, with the marker-free text named so
      that the solver does not unfold `StripMarkers` again. */
  lemma TrimOfMarkers(s: string, m: string)
    requires m == StripMarkers(s)
    ensures !HasPrefix(s, CdataOpen) && !HasSuffix(s, CdataClose) ==> Trim(m) == Trim(s)
    ensures HasPrefix(s, CdataOpen) && HasSuffix(s, CdataClose) && |CdataOpen| + |CdataClose| <= |s| ==>
      Trim(m) == Trim(s[|CdataOpen|..|s| - |CdataClose|])
  {
  }

  /** Unwrapping a CDATA section yields its trimmed contents. */
  lemma StripCdataWrapped(x: string)
    ensures StripCDATA(CdataOpen + x + CdataClose) == Trim(x)
  {
    var s := CdataOpen + x + CdataClose;
    assert s[..|CdataOpen|] == CdataOpen;
    var rest := s[|CdataOpen|..];
    assert rest == x + CdataClose;
    assert rest[|rest| - |CdataClose|..] == CdataClose;
    assert rest[..|rest| - |CdataClose|] == x;
  }

  /** `StripCdataWrapped` for a text given whole. This lemma and `NestedCdataAt`,
      `WrappedIsTrimmed` and `WrappedShrinks` below take the text and its parts as separate
      parameters tied by a `requires`: proved directly on a literal or on a nested
      concatenation, the same facts make the solver unfold the string functions far beyond
      its resource limit. */
  lemma StripCdataWrappedAt(s: string, x: string)
    requires s == CdataOpen + x + CdataClose
    ensures StripCDATA(s) == Trim(x)
  {
    StripCdataWrapped(x);
  }

  /** Text with no marker at either end is only trimmed. */
  lemma StripCdataUnmarked(s: string)
    requires !HasPrefix(s, CdataOpen) && !HasSuffix(s, CdataClose)
    ensures StripCDATA(s) == Trim(s)
  {
  }

  /** At most one opener is removed, and only at index 0; at most one closer, and only at
      the very end: the marker-free text is the slice of `s` from `a`. */
  lemma StripMarkersAtEndsOnly(s: string) returns (a: nat)
    ensures a == (if HasPrefix(s, CdataOpen) then |CdataOpen| else 0)
    ensures a + |StripMarkers(s)| <= |s| && StripMarkers(s) == s[a..a + |StripMarkers(s)|]
    ensures |s| - a - |StripMarkers(s)| == (if HasSuffix(s[a..], CdataClose) then |CdataClose| else 0)
  {
    a := if HasPrefix(s, CdataOpen) then |CdataOpen| else 0;
  }

  lemma NoSpaceInMarkers()
    ensures forall i :: 0 <= i < |CdataOpen| ==> !IsSpace(CdataOpen[i])
    ensures forall i :: 0 <= i < |CdataClose| ==> !IsSpace(CdataClose[i])
  {
  }

  /** An opener preceded by white space is not at the string start, so it survives. */
  lemma SpaceBeforeOpenerKeepsIt(w: string, x: string)
    requires w != [] && AllSpace(w)
    ensures HasPrefix(StripCDATA(w + CdataOpen + x), CdataOpen)
  {
    var s := w + CdataOpen + x;
    var head := w + CdataOpen;
    assert !HasPrefix(s, CdataOpen) by {
      assert s[0] == w[0];
    }
    var r := StripMarkers(s);
    // a closer at the end cannot reach into the opener, which holds no ']'
    assert HasPrefix(r, head) by {
      assert s[..|head|] == head;
      if HasSuffix(s, CdataClose) {
        CloserNeedsRoom(w, x);
        assert r == s[..|s| - |CdataClose|];
      }
    }
    NoSpaceInMarkers();
    TrimKeepsFront(r, w, CdataOpen);
  }

  /** The opener holds no ']', so a closer at the end of a text that opens with it lies
      after it. */
  lemma CloserNeedsRoom(w: string, x: string)
    ensures HasSuffix(w + CdataOpen + x, CdataClose) ==> |x| >= |CdataClose|
  {
    var s := w + CdataOpen + x;
    if |x| < |CdataClose| {
      var k := |s| - |CdataClose|;
      assert s[k..][0] == s[k] == CdataOpen[|CdataOpen| - |CdataClose| + |x|];
      assert CdataOpen[|CdataOpen| - |CdataClose| + |x|] != ']';
    }
  }

  /** The closer holds no '<', so an opener at the start of a text that closes with it lies
      before it. */
  lemma OpenerNeedsRoom(x: string, w: string)
    ensures HasPrefix(x + CdataClose + w, CdataOpen) ==> |x| >= |CdataOpen|
  {
    var s := x + CdataClose + w;
    if |x| < |CdataOpen| && |CdataOpen| <= |s| {
      assert s[..|CdataOpen|][|x|] == s[|x|] == ']';
      assert CdataOpen[|x|] != ']';
    }
  }

  /** A closer followed by white space is not at the string end, so it survives. */
  lemma SpaceAfterCloserKeepsIt(x: string, w: string)
    requires w != [] && AllSpace(w)
    ensures HasSuffix(StripCDATA(x + CdataClose + w), CdataClose)
  {
    var s := x + CdataClose + w;
    var tail := CdataClose + w;
    assert s[|s| - |tail|..] == tail;
    var rest := if HasPrefix(s, CdataOpen) then s[|CdataOpen|..] else s;
    // an opener at the start cannot reach into the closer, which holds no '<'
    assert HasSuffix(rest, tail) by {
      if HasPrefix(s, CdataOpen) {
        OpenerNeedsRoom(x, w);
        assert rest[|rest| - |tail|..] == s[|s| - |tail|..];
      }
    }
    assert !HasSuffix(rest, CdataClose) by {
      assert rest[|rest| - 1] == w[|w| - 1];
    }
    assert StripMarkers(s) == rest;
    NoSpaceInMarkers();
    TrimKeepsBack(rest, CdataClose, w);
  }

  /** Stripping is not idempotent: a doubly wrapped text loses one wrapping per call. */
  lemma NestedCdataNotIdempotent(x: string)
    ensures StripCDATA(CdataOpen + CdataOpen + x + CdataClose + CdataClose) == CdataOpen + x + CdataClose
    ensures StripCDATA(CdataOpen + x + CdataClose) != CdataOpen + x + CdataClose
  {
    NestedCdataAt(CdataOpen + CdataOpen + x + CdataClose + CdataClose, CdataOpen + x + CdataClose, x);
  }

  lemma NestedCdataAt(s: string, inner: string, x: string)
    requires inner == CdataOpen + x + CdataClose && s == CdataOpen + inner + CdataClose
    ensures StripCDATA(s) == inner && StripCDATA(inner) != inner
  {
    StripCdataWrappedAt(s, inner);
    WrappedIsTrimmed(inner, x);
    WrappedShrinks(inner, x);
  }

  /** A CDATA section starts with '<' and ends with '>', so trimming leaves it alone. */
  lemma WrappedIsTrimmed(s: string, x: string)
    requires s == CdataOpen + x + CdataClose
    ensures Trim(s) == s
  {
    assert s[0] == '<' && s[|s| - 1] == '>';
    TrimKeeps(s);
  }

  /** Unwrapping a CDATA section always makes it shorter. */
  lemma WrappedShrinks(s: string, x: string)
    requires s == CdataOpen + x + CdataClose
    ensures |StripCDATA(s)| < |s|
  {
    StripCdataWrappedAt(s, x);
  }

  /** The title `<![CDATA[Go 1.22 released]]>` normalises to `Go 1.22 released`. */
  lemma GoReleaseTitle()
    ensures StripCDATA("<![CDATA[Go 1.22 released]]>") == "Go 1.22 released"
  {
    var t := "Go 1.22 released";
    assert t[0] == 'G' && t[|t| - 1] == 'd';
    TrimKeeps(t);
    StripCdataWrappedAt("<![CDATA[Go 1.22 released]]>", t);
  }

  /** `extractTodaysPosts`: `today` is read once, as `now`. */
  function ExtractTodaysPosts(xml: string, cal: Calendar, now: int): (r: seq<Post>)
    ensures |r| <= |Items(xml)|
    ensures forall k :: 0 <= k < |r| ==>
      IsToday(cal, now, r[k]) && Trimmed(r[k].title) && Trimmed(r[k].link) && Trimmed(r[k].pubDate)
  {
    FieldsNormalised(xml, StripCDATA, cal, now, Trimmed);
    TodaysPosts(xml, StripCDATA, cal, now)
  }

  /** The parser the cron job's run uses. */
  function Parser(cal: Calendar): (string, int) -> seq<Post>
  {
    (xml, now) => ExtractTodaysPosts(xml, cal, now)
  }

  /** A field captured as a CDATA section yields the section's trimmed contents. */
  lemma CronFieldUnwrapsCdata(item: string, open: string, close: string, x: string)
    requires Capture(item, open, close) == Some(CdataOpen + x + CdataClose)
    ensures Field(item, open, close, StripCDATA) == Trim(x)
  {
    StripCdataWrapped(x);
  }

  /** `getAllFeeds`: every URL of the table, each once; the order is the database's. */
  method GetAllFeeds(reg: Registry) returns (feeds: seq<string>)
    ensures forall i, j :: 0 <= i < j < |feeds| ==> feeds[i] != feeds[j]
    ensures forall u :: u in feeds <==> u in reg.urls
  {
    feeds := [];
    var rest := reg.urls;
    while rest != {}
      invariant rest <= reg.urls
      invariant forall i, j :: 0 <= i < j < |feeds| ==> feeds[i] != feeds[j]
      invariant forall u :: u in feeds <==> u in reg.urls && u !in rest
      decreases |rest|
    {
      var u :| u in rest;
      feeds := feeds + [u];
      rest := rest - {u};
    }
  }

  /** `checkAllFeeds`: read the registry, then check every feed in the order read. The
      order is returned so that the outcome can be stated. */
  method CheckAllFeeds(m: Mailer, reg: Registry, world: string -> FeedWorld, cal: Calendar) returns (feeds: seq<string>)
    modifies m
    ensures forall i, j :: 0 <= i < j < |feeds| ==> feeds[i] != feeds[j]
    ensures forall u :: u in feeds <==> u in reg.urls
    ensures m.outbox == old(m.outbox) + RunEmails(feeds, world, Parser(cal))
    ensures m.log == old(m.log) + RunLog(feeds, world, Parser(cal))
  {
    feeds := GetAllFeeds(reg);
    m.CheckFeeds(feeds, world, Parser(cal));
  }
}
