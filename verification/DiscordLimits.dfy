/** decision_discord.go and linear_decisions.go: the messages as built from stored records, and
    that the limits records are stored under leave room for every link of ordinary length. */
module DiscordLimits {
  import opened Common
  import opened Text
  import opened Discord

  const INT64_MAX := 0x7fff_ffff_ffff_ffff
  const NAME_MAX := 128
  const SOURCE_MAX := 12
  const TITLE_MAX := 200
  const ANSWER_MAX := 300
  const OPTIONS_MAX := 6
  const LABEL_MAX := 120

  /** "2006-01-02 15:04 KST", and an age such as "3d 4h". */
  const TIME_MAX := 20
  const AGE_MAX := 16

  /** "<@" and "> " around a user id of at most twenty digits. */
  const MENTION_MAX := 24

  /** A console or issue address up to here leaves room for everything else. */
  const ADDRESS_MAX := 900

  // ---- decimals

  function Power10(k: nat): nat { if k == 0 then 1 else 10 * Power10(k - 1) }

  lemma {:induction false} DecimalLength(n: nat, k: nat)
    requires k > 0 && n < Power10(k)
    ensures |Decimal(n)| <= k
  {
    if n >= 10 {
      assert k > 1 && n / 10 < Power10(k - 1);
      DecimalLength(n / 10, k - 1);
    }
  }

  lemma Power10Of19()
    ensures Power10(19) == 10_000_000_000_000_000_000
  {
    assert Power10(7) == 10_000_000 && Power10(13) == 10_000_000_000_000;
  }

  lemma IdLength(n: nat)
    requires n <= INT64_MAX
    ensures |Decimal(n)| <= 19
  {
    Power10Of19();
    DecimalLength(n, 19);
  }

  // ---- the texts of one request

  /** A request's row: lane "" and task None when it has none; task holds its number and title. */
  datatype Record = Record(id: nat, source: string, lane: string, task: Option<(nat, string)>)

  predicate Stored(r: Record) {
    && r.id <= INT64_MAX && |r.source| <= SOURCE_MAX && |r.lane| <= NAME_MAX
    && (r.task.Some? ==> r.task.value.0 <= INT64_MAX)
  }

  function Reference(id: nat): string {
    "**Decision request #" + Decimal(id) + "**"
  }

  function Context(r: Record): string {
    "source " + r.source + (if r.lane != "" then " \U{00b7} lane " + r.lane else "")
    + (if r.task.Some? then TaskPart(r.task.value.0, r.task.value.1) else "")
  }

  function TaskPart(id: nat, title: string): string {
    " \U{00b7} task #" + Decimal(id) + (if title != "" then ": " + ClipRunes(title, TITLE_MAX) else "")
  }

  function OpenTitle(id: nat): string {
    "\U{2753} " + Reference(id) + " \U{00b7} "
  }

  /** due "" when the request has no due time. */
  function Asked(created: string, unix: nat, age: string, due: string): string {
    "Asked " + created + " (<t:" + Decimal(unix) + ":R>), open " + age
    + (if due != "" then " \U{00b7} due " + due else "")
  }

  /** How a request closed; who, answer and the time of an expiry may be missing. */
  datatype Closing =
    | Answered(who: string, at: string, answer: string)
    | Superseded(who: string, at: string)
    | Expired(at: string)

  function ClosedText(id: nat, c: Closing): string {
    match c
    case Answered(who, at, answer) =>
      "\U{2705} " + Reference(id) + " answered" + (if who != "" then " by " + ClipRunes(who, TITLE_MAX) else "")
      + " at " + at + (if answer != "" then ": " + ClipRunes(answer, ANSWER_MAX) else "")
    case Superseded(who, at) =>
      "\U{267b}\U{fe0f} " + Reference(id) + " superseded"
      + (if who != "" then " (" + ClipRunes(who, TITLE_MAX) + ")" else "")
      + " at " + at
    case Expired(at) =>
      "\U{231b} " + Reference(id) + " expired unanswered" + (if at != "" then " at " + at else "")
  }

  // ---- their lengths

  lemma ContextLength(r: Record)
    requires Stored(r)
    ensures |Context(r)| <= 385
  {
    if r.task.Some? { TaskPartLength(r.task.value.0, r.task.value.1); }
  }

  lemma TaskPartLength(id: nat, title: string)
    requires id <= INT64_MAX
    ensures |TaskPart(id, title)| <= 230
  {
    IdLength(id);
  }

  lemma TitleLength(id: nat)
    requires id <= INT64_MAX
    ensures |Reference(id)| <= 41 && |OpenTitle(id)| <= 46
  {
    IdLength(id);
  }

  lemma AskedLength(created: string, unix: nat, age: string, due: string)
    requires |created| <= TIME_MAX && unix <= INT64_MAX && |age| <= AGE_MAX && |due| <= TIME_MAX
    ensures |Asked(created, unix, age, due)| <= 110
  {
    IdLength(unix);
  }

  lemma ClosedLength(id: nat, c: Closing)
    requires id <= INT64_MAX && |c.at| <= TIME_MAX
    ensures 0 < |ClosedText(id, c)| <= 582
  {
    TitleLength(id);
  }

  lemma LinkLength(console: string, id: nat)
    requires id <= INT64_MAX
    ensures |LinkLine(console, id)| <= Max(|console| + 33, 120)
  {
    IdLength(id);
  }

  // ---- every message fits and keeps its link

  /** The message of a request, open or closed. */
  function NoticeOf(r: Record, mention: string, question: string, asked: string, console: string): Notice {
    Notice(mention, OpenTitle(r.id), Context(r), question, asked, LinkLine(console, r.id))
  }

  /** Under the store's limits every message of a request fits and ends in its link, whatever
      the question, if the console's address is not extraordinarily long. */
  lemma NoticesKeepLink(r: Record, mention: string, question: string, created: string, unix: nat, age: string,
                        due: string, console: string, c: Closing)
    requires Stored(r) && |mention| <= MENTION_MAX && |console| <= ADDRESS_MAX
    requires |created| <= TIME_MAX && unix <= INT64_MAX && |age| <= AGE_MAX && |due| <= TIME_MAX && |c.at| <= TIME_MAX
    ensures var x := NoticeOf(r, mention, question, Asked(created, unix, age, due), console);
            && |NoticeText(x, "")| <= CONTENT_MAX && EndsWith(NoticeText(x, ""), x.link)
            && |NoticeText(x, ClosedText(r.id, c))| <= CONTENT_MAX
            && EndsWith(NoticeText(x, ClosedText(r.id, c)), x.link)
  {
    var asked := Asked(created, unix, age, due);
    ContextLength(r);
    TitleLength(r.id);
    AskedLength(created, unix, age, due);
    ClosedLength(r.id, c);
    LinkLength(console, r.id);
    hide Asked, Context, OpenTitle, ClosedText, LinkLine, NoticeText;
    var x := NoticeOf(r, mention, question, asked, console);
    OpenNotice(x, console, r.id);
    ClosedNotice(x, ClosedText(r.id, c), console, r.id);
  }

  /** With an address as long as a whole message no open request's message keeps its link. */
  lemma LongAddressLosesLink(x: Notice, console: string, id: nat)
    requires x.link == LinkLine(console, id) && |console| >= CONTENT_MAX
    ensures !EndsWith(NoticeText(x, ""), x.link)
  {
    assert |x.link| >= |console|;
    OpenNotice(x, console, id);
  }

  // ---- the announcement of a new issue

  /** ref is D-<task>-<revision>. */
  function DecisionRef(task: nat, revision: nat): string {
    "D-" + Decimal(task) + "-" + Decimal(revision)
  }

  function AnnouncementHead(ref: string, ver: string, deadline: string): string {
    "\U{1f5f3}\U{fe0f} **" + ref + "** ver=" + ver + ", " + deadline + "\n"
  }

  /** One line per option: its number, its key and its label. */
  function OptionLines(options: seq<(char, string)>): string {
    if |options| == 0 then ""
    else
      var n := |options|;
      OptionLines(options[..n - 1]) + "\n" + Decimal(n) + ". " + [options[n - 1].0] + ": " + options[n - 1].1
  }

  function AnnouncementTail(options: seq<(char, string)>, ref: string, url: string): string {
    OptionLines(options) + "\nAnswer on Linear, first line of a comment: `1` or `" + ref + " 1`\n" + url
  }

  lemma {:induction false} OptionsLength(options: seq<(char, string)>)
    requires |options| <= 9 && forall i :: 0 <= i < |options| ==> |options[i].1| <= LABEL_MAX
    ensures |OptionLines(options)| <= |options| * 127
    decreases |options|
  {
    if |options| > 0 {
      OptionsLength(options[..|options| - 1]);
      assert |Decimal(|options|)| == 1;
    }
  }

  /** Under the store's limits the announcement always fits, and ends in the issue's address. */
  lemma AnnouncementAlwaysFits(task: nat, revision: nat, ver: string, deadline: string, options: seq<(char, string)>,
                               question: string, url: string)
    requires task <= INT64_MAX && revision <= INT64_MAX && |ver| == 8 && |deadline| <= TIME_MAX + 9
    requires |options| <= OPTIONS_MAX && forall i :: 0 <= i < |options| ==> |options[i].1| <= LABEL_MAX
    requires |url| <= ADDRESS_MAX
    ensures var ref := DecisionRef(task, revision);
            var head, tail := AnnouncementHead(ref, ver, deadline), AnnouncementTail(options, ref, url);
            var text := Announcement(head, question, tail);
            |text| <= CONTENT_MAX && EndsWith(text, url)
  {
    var ref := DecisionRef(task, revision);
    IdLength(task);
    IdLength(revision);
    OptionsLength(options);
    var head, tail := AnnouncementHead(ref, ver, deadline), AnnouncementTail(options, ref, url);
    assert |ref| <= 41 && |head| <= 100 && |tail| <= 762 + 120 + |url|;
    TailEndsIn(options, ref, url);
    hide AnnouncementHead, AnnouncementTail, DecisionRef, Announcement;
    AnnouncementFits(head, question, tail);
    EndsThrough(Announcement(head, question, tail), tail, url);
  }

  lemma TailEndsIn(options: seq<(char, string)>, ref: string, url: string)
    ensures EndsWith(AnnouncementTail(options, ref, url), url)
  {
    SuffixOf(OptionLines(options) + "\nAnswer on Linear, first line of a comment: `1` or `" + ref + " 1`\n", url);
  }

  lemma EndsThrough(s: string, tail: string, url: string)
    requires EndsWith(s, tail) && EndsWith(tail, url)
    ensures EndsWith(s, url)
  {
    assert s[|s| - |url|..] == s[|s| - |tail|..][|tail| - |url|..];
  }

  /** With an address as long as a whole message the announcement is over the limit. */
  lemma LongAddressOverflows(head: string, question: string, tail: string, url: string)
    requires EndsWith(tail, url) && |url| >= CONTENT_MAX
    ensures |Announcement(head, question, tail)| > CONTENT_MAX
  {
    AnnouncementFits(head, question, tail);
  }

  // ---- the digest

  function DigestHead(day: string, total: nat): string {
    "\U{1f5d3}\U{fe0f} **Decision requests open over 24 hours** \U{00b7} " + day + " (UTC) \U{00b7} " + Decimal(total)
  }

  /** A request's line names it by number, and shows its age, its context and up to a hundred
      runes of its question, unless the two are extraordinarily long. */
  lemma DigestLineShows(x: Item)
    requires x.id <= INT64_MAX && |x.age| <= AGE_MAX && |x.context| <= 340
    ensures DigestLine(x) ==
              "\n\U{2022} #" + Decimal(x.id) + " \U{00b7} open " + x.age + " \U{00b7} " + x.context + ": "
              + ClipRunes(x.question, 100)
  {
    IdLength(x.id);
    hide Decimal;
    assert |ClipRunes(x.question, 100)| <= 100;
  }

  /** The digest's header, link and full count always leave room under these limits. */
  lemma DigestAlwaysFits(day: string, total: nat, console: string)
    requires |day| == 10 && total <= INT64_MAX && |console| <= ADDRESS_MAX
    ensures |DigestHead(day, total)| + 1 + |LinkLine(console, 0)| + |MoreLine(total)| <= CONTENT_MAX
  {
    IdLength(total);
    LinkLength(console, 0);
  }

  // ---- a link names its request

  /** The links of two requests on one console differ. */
  lemma LinkNamesRequest(console: string, id: nat, other: nat)
    requires id > 0 && other > 0 && LinkLine(console, id) == LinkLine(console, other)
    ensures id == other
  {
    var lead := if console == "" then "Find request #" else console + "/ui/decisions/";
    var rest := if console == "" then " on the console's Decisions page or with `handoffkeep decisions list`." else "";
    Between(lead, Decimal(id), rest, LinkLine(console, id));
    Between(lead, Decimal(other), rest, LinkLine(console, other));
    DecimalNames(id, other);
  }

  lemma Between(lead: string, middle: string, rest: string, s: string)
    requires s == lead + middle + rest
    ensures |s| >= |lead| + |rest| && s[|lead|..|s| - |rest|] == middle
  {}
}
