/** `ajax_publish_post`: the publish request handler as a step function from
    the request and the stored post to the response and the stored post after
    the request. The nonce and capability checks are opaque inputs; the store
    writes are modelled by their effect on the status and the two dates. */
module PublishFlow {
  import opened Posts

  const StatusPublish: string := "publish"
  const StatusFuture: string := "future"

  const NotAllowedError: string := "Sorry, the current user is not allowed to publish posts"
  const NotFoundError: string := "Sorry, no post to publish was found."
  const AlreadyDoneError: string := "Looks like this post has already been published or scheduled"

  /** A `pf_publish_post` request: whether `check_ajax_referer` accepts the
      nonce, whether a current-user object exists, the `(int)` cast of
      `post_id`, and whether `current_user_can('publish_post', id)` holds. */
  datatype Request = Request(nonceValid: bool, hasUser: bool, postId: int, canPublish: bool)

  /** What `get_post` gave for the id: a post, or a `WP_Error`. */
  datatype Lookup = Found(post: Post) | LookupError

  datatype Outcome = Published | Scheduled

  /** The response: the bare `-1` that `check_ajax_referer` dies with, the two
      error shapes (`outcome: error` before the post is read, `status: error`
      after), or success with the post's permalink. */
  datatype Response =
    | NonceRejected
    | OutcomeError(error: string)
    | StatusError(error: string)
    | Success(outcome: Outcome, postLink: string)

  datatype Reply = Reply(response: Response, stored: Lookup)

  /** The idempotency guard: a published or scheduled post is never transitioned again. */
  predicate AlreadyTransitioned(post: Post) {
    post.status == StatusPublish || post.status == StatusFuture
  }

  /** The transition itself. A scheduled post becomes `future` with its dates
      untouched. Any other post is published; its dates are stamped with the
      current local and GMT time first, but only when no GMT date was ever
      chosen (empty or the zero-date sentinel), so backdated posts keep theirs. */
  function Transition(post: Post, clock: Clock): (r: (Post, Outcome))
    ensures r.0.id == post.id && r.0.postType == post.postType && r.0.fields == post.fields
    ensures r.1 == Scheduled <==> IfScheduledPost(post, clock.now)
    ensures r.0.status == (if r.1 == Scheduled then StatusFuture else StatusPublish)
    ensures r.0.dateGmt != post.dateGmt ==>
              (post.dateGmt.Blank? || post.dateGmt.ZeroDate?) && r.0.dateGmt == At(clock.now)
              && r.0.date == At(LocalNow(clock))
    ensures r.0.date != post.date ==> r.0.date == At(LocalNow(clock)) && r.1 == Published
  {
    if IfScheduledPost(post, clock.now) then
      (post.(status := StatusFuture), Scheduled)
    else
      var stamped :=
        if post.dateGmt.Blank? || post.dateGmt.ZeroDate?
        then post.(date := At(LocalNow(clock)), dateGmt := At(clock.now))
        else post;
      (stamped.(status := StatusPublish), Published)
  }

  /** The handler: nonce, then user/id/capability, then the lookup, then the
      status guard; the first failing guard answers and leaves the store alone. */
  function PublishPost(req: Request, stored: Lookup, clock: Clock, permalink: string): (r: Reply)
    ensures r.response.Success? <==>
              req.nonceValid && req.hasUser && req.postId != 0 && req.canPublish
              && stored.Found? && !AlreadyTransitioned(stored.post)
    ensures !r.response.Success? ==> r.stored == stored
    ensures r.response.Success? ==> r.stored.Found? && AlreadyTransitioned(r.stored.post)
    ensures r.response.Success? ==> r.response.postLink == permalink
    ensures r.response.Success? ==> (r.stored.post, r.response.outcome) == Transition(stored.post, clock)
  {
    if !req.nonceValid then Reply(NonceRejected, stored)
    else if !req.hasUser || req.postId == 0 || !req.canPublish then Reply(OutcomeError(NotAllowedError), stored)
    else if stored.LookupError? then Reply(StatusError(NotFoundError), stored)
    else if AlreadyTransitioned(stored.post) then Reply(StatusError(AlreadyDoneError), stored)
    else
      var (post, outcome) := Transition(stored.post, clock);
      Reply(Success(outcome, permalink), Found(post))
  }

  /** Guards are checked in order and the first failure decides the answer,
      whatever the later guards would have said. */
  lemma GuardOrder(req: Request, stored: Lookup, clock: Clock, permalink: string)
    ensures var r := PublishPost(req, stored, clock, permalink);
      && (!req.nonceValid ==> r.response == NonceRejected)
      && (req.nonceValid && (!req.hasUser || req.postId == 0 || !req.canPublish) ==>
            r.response == OutcomeError(NotAllowedError))
      && (req.nonceValid && req.hasUser && req.postId != 0 && req.canPublish && stored.LookupError? ==>
            r.response == StatusError(NotFoundError))
      && (req.nonceValid && req.hasUser && req.postId != 0 && req.canPublish
          && stored.Found? && AlreadyTransitioned(stored.post) ==>
            r.response == StatusError(AlreadyDoneError))
  {
  }

  /** A second publish of the same post, after one that succeeded, is
      rejected as already done and changes nothing, whatever the clock says. */
  lemma SecondPublishRejected(req: Request, stored: Lookup, clock1: Clock, clock2: Clock, link1: string, link2: string)
    requires PublishPost(req, stored, clock1, link1).response.Success?
    ensures var first := PublishPost(req, stored, clock1, link1);
            var second := PublishPost(req, first.stored, clock2, link2);
            second.response == StatusError(AlreadyDoneError) && second.stored == first.stored
  {
  }

  /** The transition by scheduling decision: a scheduled post becomes
      `future` with both dates kept; an immediate one is published with both
      dates stamped to now; a backdated one is published with both dates kept.
      The id, type and text columns never change. */
  lemma TransitionByDecision(post: Post, clock: Clock)
    ensures var (after, outcome) := Transition(post, clock);
      && after.id == post.id && after.postType == post.postType && after.fields == post.fields
      && (Decide(post, clock.now) == FutureScheduled ==>
            outcome == Scheduled && after.status == StatusFuture
            && after.date == post.date && after.dateGmt == post.dateGmt)
      && (Decide(post, clock.now) == Immediate ==>
            outcome == Published && after.status == StatusPublish
            && after.date == At(LocalNow(clock)) && after.dateGmt == At(clock.now))
      && (Decide(post, clock.now) == Backdated ==>
            outcome == Published && after.status == StatusPublish
            && after.date == post.date && after.dateGmt == post.dateGmt)
  {
  }

  /** After a successful publish the GMT date is a real instant, never in
      the future: the handler never publishes ahead of time. */
  lemma PublishedNotAhead(req: Request, stored: Lookup, clock: Clock, permalink: string)
    requires clock.now >= ZeroDateSeconds
    ensures var r := PublishPost(req, stored, clock, permalink);
            r.response == Success(Published, permalink) ==>
              r.stored.post.dateGmt.At? && r.stored.post.dateGmt.seconds <= clock.now
  {
  }

  /** A JSON response body, field name to value, or a bare text body. */
  datatype Body = Json(fields: map<string, string>) | Text(text: string)

  function OutcomeName(o: Outcome): string {
    match o
    case Published => "published"
    case Scheduled => "scheduled"
  }

  /** The body `wp_send_json` (or `check_ajax_referer`) sends for a response. */
  function ResponseBody(r: Response): Body {
    match r
    case NonceRejected => Text("-1")
    case OutcomeError(e) => Json(map["outcome" := "error", "error" := e])
    case StatusError(e) => Json(map["status" := "error", "error" := e])
    case Success(o, link) => Json(map["outcome" := OutcomeName(o), "status" := "success", "postLink" := link])
  }

  /** Every JSON error carries an `error` field, though under `outcome` or
      `status` depending on the stage; success never does, and only success
      has `status: success`. */
  lemma ErrorFieldMarksFailure(r: Response)
    requires ResponseBody(r).Json?
    ensures "error" in ResponseBody(r).fields <==> !r.Success?
    ensures ("status" in ResponseBody(r).fields && ResponseBody(r).fields["status"] == "success") <==> r.Success?
    ensures r.Success? ==> ResponseBody(r).fields["outcome"] in {"published", "scheduled"}
  {
  }
}
