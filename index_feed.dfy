/**
 * The stand-alone checker (src/index.ts): a fixed list of fifteen feeds, and fields that
 * are only trimmed.
 */
module IndexFeed {
  import opened Options
  import opened Text
  import opened Scan
  import opened Feed
  import opened Notify

  const FeedUrls: seq<string> := [
    "https://thomasvn.dev/feed/",
    "https://jvns.ca/atom.xml",
    "https://golangweekly.com/rss/",
    "https://blog.pragmaticengineer.com/feed/",
    "https://rss.beehiiv.com/feeds/gQxaV1KHkQ.xml",
    "https://world.hey.com/dhh/feed.atom",
    "https://blog.kubecost.com/feed.xml",
    "https://kubernetes.io/feed.xml",
    "https://technicalwriting.dev/rss.xml",
    "https://sive.rs/en.atom",
    "https://matt-rickard.com/rss",
    "https://cybernetist.com/index.xml",
    "https://prometheus.io/blog/feed.xml",
    "https://www.seangoedecke.com/rss.xml",
    "https://www.alexedwards.net/static/feed.rss"
  ]

  /** The list holds fifteen distinct URLs, so each feed is checked once per run. */
  lemma FeedUrlsDistinct()
    ensures |FeedUrls| == 15
    ensures forall i, j :: 0 <= i < j < |FeedUrls| ==> FeedUrls[i] != FeedUrls[j]
  {
  }

  /** `parseForTodaysPosts`: `today` is read once, as `now`. */
  function ParseForTodaysPosts(xml: string, cal: Calendar, now: int): (r: seq<Post>)
    ensures |r| <= |Items(xml)|
    ensures forall k :: 0 <= k < |r| ==>
      IsToday(cal, now, r[k]) && Trimmed(r[k].title) && Trimmed(r[k].link) && Trimmed(r[k].pubDate)
  {
    FieldsNormalised(xml, Trim, cal, now, Trimmed);
    TodaysPosts(xml, Trim, cal, now)
  }

  /** The parser the run uses. */
  function Parser(cal: Calendar): (string, int) -> seq<Post>
  {
    (xml, now) => ParseForTodaysPosts(xml, cal, now)
  }

  /** Fields are only trimmed: a CDATA section is kept with its markup. */
  lemma IndexFieldKeepsCdata(item: string, open: string, close: string, x: string)
    requires Capture(item, open, close) == Some(CdataOpen + x + CdataClose)
    ensures Field(item, open, close, Trim) == CdataOpen + x + CdataClose
  {
    var w := CdataOpen + x + CdataClose;
    assert w[0] == '<' && w[|w| - 1] == '>';
    TrimKeeps(w);
  }

  /** `checkAllFeeds`: each of the fifteen feeds once, in list order, whatever happens to
      any of them. */
  method CheckAllFeeds(m: Mailer, world: string -> FeedWorld, cal: Calendar)
    modifies m
    ensures m.outbox == old(m.outbox) + RunEmails(FeedUrls, world, Parser(cal))
    ensures m.log == old(m.log) + RunLog(FeedUrls, world, Parser(cal))
    ensures |m.log| == |old(m.log)| + 15
    ensures forall k :: 0 <= k < 15 ==>
      m.log[|old(m.log)| + k] == Report(FeedUrls[k], FeedStatus(world(FeedUrls[k]), Parser(cal)))
  {
    m.CheckFeeds(FeedUrls, world, Parser(cal));
    RunLogCoversEveryFeed(FeedUrls, world, Parser(cal));
  }
}
