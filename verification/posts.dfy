/** The post record the engine reads and writes, its two publish dates, and
    the scheduling classification derived from the GMT date. */
module Posts {

  /** A stored MySQL datetime: the empty string, the zero-date sentinel
      `0000-00-00 00:00:00`, or a real instant in seconds. */
  datatype Date = Blank | ZeroDate | At(seconds: int)

  /** What `strtotime` gives for the zero-date sentinel read as GMT
      (the sentinel normalises to -0001-11-30 00:00:00 UTC). */
  const ZeroDateSeconds: int := -62169984000

  /** The wall clock of one request: `time()` and the site's GMT offset;
      `current_time('mysql')` is `now + offset`, `current_time('mysql', 1)` is `now`. */
  datatype Clock = Clock(now: int, offset: int)

  function LocalNow(clock: Clock): int {
    clock.now + clock.offset
  }

  /** A post: its id, type, status, local and GMT publish dates, and the
      textual columns (`post_title`, `post_content`, …) by column name. */
  datatype Post = Post(
    id: int,
    postType: string,
    status: string,
    date: Date,
    dateGmt: Date,
    fields: map<string, string>)

  /** `strtotime($post_date_gmt . ' GMT')`: a blank date parses as the zone
      alone, which yields the current time. */
  function GmtTime(d: Date, now: int): int {
    match d
    case Blank => now
    case ZeroDate => ZeroDateSeconds
    case At(t) => t
  }

  /** `if_scheduled_post`: the GMT publish time is strictly after now. */
  function IfScheduledPost(post: Post, now: int): (r: bool)
    ensures r ==> !post.dateGmt.Blank?
    ensures post.dateGmt.At? ==> (r <==> post.dateGmt.seconds > now)
  {
    GmtTime(post.dateGmt, now) > now
  }

  /** For any clock later than year zero, a post is scheduled exactly when it
      carries a real GMT date that lies strictly in the future; a date equal
      to now is not scheduled. */
  lemma ScheduledIffFuture(post: Post, now: int)
    requires now >= ZeroDateSeconds
    ensures IfScheduledPost(post, now) <==> post.dateGmt.At? && post.dateGmt.seconds > now
    ensures post.dateGmt == At(now) ==> !IfScheduledPost(post, now)
  {
  }

  /** The three ways a publish request can treat a post. */
  datatype Decision = Immediate | Backdated | FutureScheduled

  /** The classification the publish handler acts on: scheduled posts go to
      `future`; of the rest, those without a chosen GMT date (empty or the
      sentinel) get stamped with now, and the others keep their past date. */
  function Decide(post: Post, now: int): (d: Decision)
    ensures d == FutureScheduled <==> IfScheduledPost(post, now)
    ensures d == Immediate ==> post.dateGmt.Blank? || post.dateGmt.ZeroDate?
    ensures d == Backdated ==> post.dateGmt.At? && post.dateGmt.seconds <= now
  {
    if IfScheduledPost(post, now) then FutureScheduled
    else if post.dateGmt.Blank? || post.dateGmt.ZeroDate? then Immediate
    else Backdated
  }

  /** The classification agrees, for every realistic clock, with the split the
      handler's own comment describes (inc/class-publishing-flow-admin.php:952-956):
      unset dates are immediate, future dates scheduled, and dates at or before
      now backdated. */
  lemma DecideByDate(post: Post, now: int)
    requires now >= ZeroDateSeconds
    ensures Decide(post, now) == Immediate <==> post.dateGmt.Blank? || post.dateGmt.ZeroDate?
    ensures Decide(post, now) == FutureScheduled <==> post.dateGmt.At? && post.dateGmt.seconds > now
    ensures Decide(post, now) == Backdated <==> post.dateGmt.At? && post.dateGmt.seconds <= now
  {
  }

  /** The `postDatePast` flag of the data array: "1" when the post is not
      scheduled and its GMT date is not the exact zero-date sentinel. */
  function PostDatePast(post: Post, now: int): (flag: string)
    ensures flag == "1" || flag == "0"
    ensures flag == "1" <==> !IfScheduledPost(post, now) && post.dateGmt != ZeroDate
    ensures post.dateGmt.At? ==> (flag == "1" <==> post.dateGmt.seconds <= now)
  {
    if !IfScheduledPost(post, now) && post.dateGmt != ZeroDate then "1" else "0"
  }

  /** The flag tests only the sentinel, while the publish handler also treats
      an empty date as unset: the two agree except on a blank GMT date, which
      the flag reports as "in the past" although the handler stamps it. */
  lemma PastFlagVersusDecision(post: Post, now: int)
    ensures PostDatePast(post, now) == "1" <==> Decide(post, now) == Backdated || post.dateGmt.Blank?
    ensures post.dateGmt.Blank? ==> PostDatePast(post, now) == "1" && Decide(post, now) == Immediate
  {
  }
}
