/**
 * The effectful side of both feed checkers: for each feed URL in turn, fetch it, find
 * today's posts and send one email per post; any failure is caught inside that feed.
 * The variant's pure parser is a parameter `parse(xml, now)`.
 *
 * The network and the mail transport are replaced by a `FeedWorld` per URL saying what
 * the fetch returns, what the clock reads when the feed is parsed, and which email (if
 * any) fails to send. Sent emails go to an outbox; the console lines become a log with
 * one report per feed.
 */
module Notify {
  import opened Options
  import opened Text
  import opened Feed

  datatype Email = Email(subject: string, text: string)

  /** The outcome of `fetch(url)` followed by `response.text()`; any throw is FetchFailed.
      The HTTP status is never looked at, so an error page is a Fetched body. */
  datatype Fetch = FetchFailed | Fetched(body: string)

  /** What the outside world does for one feed: the fetch outcome, the instant `new Date()`
      reads while the feed is parsed, and the index of the first email of this feed whose
      send throws (None when all are sent). */
  datatype FeedWorld = FeedWorld(fetch: Fetch, now: int, mailFailsAt: Option<nat>)

  /** What the feed's try/catch reports: no new posts, all new posts mailed, or an error. */
  datatype Status = NoNewPosts | Notified(count: nat) | Failed

  datatype Report = Report(url: string, status: Status)

  /** The email announcing one post. */
  function Notification(p: Post, feedUrl: string): (r: Email)
    ensures HasPrefix(r.subject, p.title) && HasSuffix(r.subject, " - from " + feedUrl)
    ensures |r.subject| == |p.title| + |" - from " + feedUrl|
    ensures r.text == p.link
  {
    Email(p.title + " - from " + feedUrl, p.link)
  }

  /** One email per post, in post order. */
  function Notifications(posts: seq<Post>, feedUrl: string): (r: seq<Email>)
    ensures |r| == |posts|
  {
    seq(|posts|, k requires 0 <= k < |posts| => Notification(posts[k], feedUrl))
  }

  /** The emails that go out before the first failing send, which ends the loop. */
  function Delivered(emails: seq<Email>, failsAt: Option<nat>): (r: seq<Email>)
    ensures r <= emails
    ensures r == emails <==> failsAt.None? || failsAt.value >= |emails|
  {
    match failsAt
    case None => emails
    case Some(k) => if k < |emails| then emails[..k] else emails
  }

  /** The emails one feed produces. */
  function FeedEmails(url: string, w: FeedWorld, parse: (string, int) -> seq<Post>): (r: seq<Email>)
    ensures w.fetch.FetchFailed? ==> r == []
    ensures w.fetch.Fetched? ==> r <= Notifications(parse(w.fetch.body, w.now), url)
    ensures w.fetch.Fetched? && w.mailFailsAt.None? ==> r == Notifications(parse(w.fetch.body, w.now), url)
  {
    match w.fetch
    case FetchFailed => []
    case Fetched(xml) =>
      var posts := parse(xml, w.now);
      if |posts| > 0 then Delivered(Notifications(posts, url), w.mailFailsAt) else []
  }

  /** The status one feed reports. */
  function FeedStatus(w: FeedWorld, parse: (string, int) -> seq<Post>): (r: Status)
    ensures r.NoNewPosts? <==> w.fetch.Fetched? && parse(w.fetch.body, w.now) == []
    ensures r.Notified? ==> w.fetch.Fetched? && r.count == |parse(w.fetch.body, w.now)| > 0
    ensures r.Notified? <==>
      && w.fetch.Fetched? && parse(w.fetch.body, w.now) != []
      && (w.mailFailsAt.None? || w.mailFailsAt.value >= |parse(w.fetch.body, w.now)|)
  {
    match w.fetch
    case FetchFailed => Failed
    case Fetched(xml) =>
      var posts := parse(xml, w.now);
      if |posts| == 0 then NoNewPosts
      else if w.mailFailsAt.Some? && w.mailFailsAt.value < |posts| then Failed
      else Notified(|posts|)
  }

  /** A fetched feed reports Notified exactly when it has new posts and every one of them
      was mailed. */
  lemma StatusAgreesWithEmails(url: string, w: FeedWorld, parse: (string, int) -> seq<Post>)
    requires w.fetch.Fetched?
    ensures var posts := parse(w.fetch.body, w.now);
      FeedStatus(w, parse).Notified? <==> posts != [] && FeedEmails(url, w, parse) == Notifications(posts, url)
  {
  }

  /** What a run produces: the outputs `f` gives for each feed, concatenated in feed order. */
  function Gather<T>(feeds: seq<string>, f: string -> seq<T>): seq<T>
  {
    if feeds == [] then []
    else Gather(feeds[..|feeds| - 1], f) + f(feeds[|feeds| - 1])
  }

  /** The output of a run over `a + b` is that of `a` followed by that of `b`. */
  lemma {:induction false} GatherAppend<T>(a: seq<string>, b: seq<string>, f: string -> seq<T>)
    ensures Gather(a + b, f) == Gather(a, f) + Gather(b, f)
    decreases |b|
  {
    if b == [] {
      assert a + b == a;
    } else {
      var b' := b[..|b| - 1];
      assert (a + b)[..|a + b| - 1] == a + b';
      GatherAppend(a, b', f);
    }
  }

  lemma GatherSingle<T>(u: string, f: string -> seq<T>)
    ensures Gather([u], f) == f(u)
  {
    assert [u][..0] == [];
  }

  /** When every feed yields exactly one output, the run yields one per feed, in order. */
  lemma {:induction false} GatherOnePerFeed<T>(feeds: seq<string>, f: string -> seq<T>)
    requires forall u :: |f(u)| == 1
    ensures |Gather(feeds, f)| == |feeds|
    ensures forall k :: 0 <= k < |feeds| ==> Gather(feeds, f)[k] == f(feeds[k])[0]
  {
    if feeds != [] {
      GatherOnePerFeed(feeds[..|feeds| - 1], f);
    }
  }

  /** The emails of a whole run, feed after feed. */
  function RunEmails(feeds: seq<string>, world: string -> FeedWorld, parse: (string, int) -> seq<Post>): seq<Email>
  {
    Gather(feeds, u => FeedEmails(u, world(u), parse))
  }

  /** The reports of a whole run, feed after feed. */
  function RunLog(feeds: seq<string>, world: string -> FeedWorld, parse: (string, int) -> seq<Post>): seq<Report>
  {
    Gather(feeds, u => [Report(u, FeedStatus(world(u), parse))])
  }

  /** Every feed of the run is checked exactly once, in the given order, whatever happens
      to the others. */
  lemma RunLogCoversEveryFeed(feeds: seq<string>, world: string -> FeedWorld, parse: (string, int) -> seq<Post>)
    ensures |RunLog(feeds, world, parse)| == |feeds|
    ensures forall k :: 0 <= k < |feeds| ==>
      RunLog(feeds, world, parse)[k] == Report(feeds[k], FeedStatus(world(feeds[k]), parse))
  {
    GatherOnePerFeed(feeds, u => [Report(u, FeedStatus(world(u), parse))]);
  }

  /** A run over `a + b` sends the emails of `a` and then those of `b`: what happens to one
      feed has no effect on the emails of any other. */
  lemma RunEmailsAppend(a: seq<string>, b: seq<string>, world: string -> FeedWorld, parse: (string, int) -> seq<Post>)
    ensures RunEmails(a + b, world, parse) == RunEmails(a, world, parse) + RunEmails(b, world, parse)
  {
    GatherAppend(a, b, u => FeedEmails(u, world(u), parse));
  }

  /** A feed whose fetch fails sends nothing, and the run sends exactly what the feeds
      before and after it send. */
  lemma FailedFeedIsIsolated(feeds: seq<string>, k: nat, world: string -> FeedWorld, parse: (string, int) -> seq<Post>)
    requires k < |feeds| && world(feeds[k]).fetch == FetchFailed
    ensures RunEmails(feeds, world, parse) ==
      RunEmails(feeds[..k], world, parse) + RunEmails(feeds[k + 1..], world, parse)
  {
    assert feeds == feeds[..k] + ([feeds[k]] + feeds[k + 1..]);
    RunEmailsAppend(feeds[..k], [feeds[k]] + feeds[k + 1..], world, parse);
    RunEmailsAppend([feeds[k]], feeds[k + 1..], world, parse);
    GatherSingle(feeds[k], u => FeedEmails(u, world(u), parse));
  }

  /** A feed that is fetched and whose emails all go out sends exactly one email per new
      post, in post order, with subject `title - from url` and the link as text. */
  lemma FeedSendsOnePerPost(url: string, w: FeedWorld, parse: (string, int) -> seq<Post>)
    requires w.fetch.Fetched? && w.mailFailsAt.None?
    ensures var posts := parse(w.fetch.body, w.now);
      && |FeedEmails(url, w, parse)| == |posts|
      && (forall k :: 0 <= k < |posts| ==>
            FeedEmails(url, w, parse)[k] == Email(posts[k].title + " - from " + url, posts[k].link))
      && FeedStatus(w, parse) == if posts == [] then NoNewPosts else Notified(|posts|)
  {
  }

  /** A mail failure at the k-th new post keeps the k emails before it and reports the feed
      as failed. */
  lemma MailFailureKeepsEarlierEmails(url: string, w: FeedWorld, parse: (string, int) -> seq<Post>)
    requires w.fetch.Fetched? && w.mailFailsAt.Some?
    requires w.mailFailsAt.value < |parse(w.fetch.body, w.now)|
    ensures var posts := parse(w.fetch.body, w.now);
      && FeedEmails(url, w, parse) == Notifications(posts[..w.mailFailsAt.value], url)
      && FeedStatus(w, parse) == Failed
  {
  }

  /** The sender: an outbox of the emails sent so far and a log of the per-feed reports. */
  class Mailer {
    var outbox: seq<Email>
    var log: seq<Report>

    constructor ()
      ensures outbox == [] && log == []
    {
      outbox := [];
      log := [];
    }

    /** `sendEmailNotification`: one email per post, in order; a send that throws ends the
        loop (ok is false) and the emails before it stay sent. */
    method SendEmailNotification(posts: seq<Post>, feedUrl: string, failsAt: Option<nat>) returns (ok: bool)
      modifies this
      ensures ok <==> failsAt.None? || failsAt.value >= |posts|
      ensures outbox == old(outbox) + Delivered(Notifications(posts, feedUrl), failsAt)
      ensures log == old(log)
    {
      var i := 0;
      while i < |posts|
        invariant 0 <= i <= |posts|
        invariant failsAt.Some? ==> i <= failsAt.value
        invariant outbox == old(outbox) + Notifications(posts, feedUrl)[..i]
        invariant log == old(log)
      {
        if failsAt == Some(i) {
          return false;
        }
        outbox := outbox + [Notification(posts[i], feedUrl)];
        i := i + 1;
      }
      assert Notifications(posts, feedUrl)[..i] == Notifications(posts, feedUrl);
      return true;
    }

    /** `fetchFeedAndNotify`: the body of one feed's try/catch. */
    method FetchFeedAndNotify(feedUrl: string, w: FeedWorld, parse: (string, int) -> seq<Post>)
      modifies this
      ensures outbox == old(outbox) + FeedEmails(feedUrl, w, parse)
      ensures log == old(log) + [Report(feedUrl, FeedStatus(w, parse))]
    {
      match w.fetch {
        case FetchFailed =>
          log := log + [Report(feedUrl, Failed)];
        case Fetched(xml) =>
          var newPosts := parse(xml, w.now);
          if |newPosts| > 0 {
            var ok := SendEmailNotification(newPosts, feedUrl, w.mailFailsAt);
            log := log + [Report(feedUrl, if ok then Notified(|newPosts|) else Failed)];
          } else {
            log := log + [Report(feedUrl, NoNewPosts)];
          }
      }
    }

    /** `checkAllFeeds`: every feed in turn, in the given order. */
    method CheckFeeds(feeds: seq<string>, world: string -> FeedWorld, parse: (string, int) -> seq<Post>)
      modifies this
      ensures outbox == old(outbox) + RunEmails(feeds, world, parse)
      ensures log == old(log) + RunLog(feeds, world, parse)
    {
      var i := 0;
      while i < |feeds|
        invariant 0 <= i <= |feeds|
        invariant outbox == old(outbox) + RunEmails(feeds[..i], world, parse)
        invariant log == old(log) + RunLog(feeds[..i], world, parse)
      {
        FetchFeedAndNotify(feeds[i], world(feeds[i]), parse);
        assert feeds[..i + 1][..i] == feeds[..i];
        i := i + 1;
      }
      assert feeds[..i] == feeds;
    }
  }
}
