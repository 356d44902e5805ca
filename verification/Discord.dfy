/** decision_discord.go and linear_decisions.go: messages cut to fit Discord's limit. Lengths
    are in runes; a Dafny char is one rune. */
module Discord {
  import opened Common
  import opened Text

  const CONTENT_MAX := 2000
  const DIGEST_LINE_QUESTION_MAX := 100
  const ELLIPSIS: char := '\U{2026}'

  /** Cuts s to at most n runes, marking the cut. */
  function ClipRunes(s: string, n: int): (r: string)
    ensures |r| == Min(|s|, Max(n, 0))
    ensures |s| <= n ==> r == s
    ensures |s| > n >= 1 ==> r[..n - 1] == s[..n - 1] && r[n - 1] == ELLIPSIS
  {
    if |s| <= n then s
    else if n < 1 then ""
    else s[..n - 1] + [ELLIPSIS]
  }

  // ---- the daily digest

  /** One stale request: its number, its age and context as rendered, its question's first line. */
  datatype Item = Item(id: nat, age: string, context: string, question: string)

  function DigestLine(x: Item): (line: string)
    ensures 13 <= |line| <= CONTENT_MAX / 4
  {
    var full := "\n\U{2022} #" + Decimal(x.id) + " \U{00b7} open " + x.age + " \U{00b7} " + x.context + ": "
              + ClipRunes(x.question, DIGEST_LINE_QUESTION_MAX);
    ClipRunes(full, CONTENT_MAX / 4)
  }

  /** "+N more", or nothing when no request is left out. */
  function MoreLine(rest: int): (s: string)
  {
    if rest > 0 then "\n+" + Decimal(rest) + " more" else ""
  }

  function Lines(items: seq<Item>): string {
    if items == [] then "" else Lines(items[..|items| - 1]) + DigestLine(items[|items| - 1])
  }

  /** The digest with the first shown requests listed. */
  function DigestWith(head: string, link: string, items: seq<Item>, total: int, shown: nat): string
    requires shown <= |items|
  {
    head + Lines(items[..shown]) + MoreLine(total - shown) + "\n" + link
  }

  method DecisionDigestText(head: string, link: string, items: seq<Item>, total: int)
    returns (text: string, ghost shown: nat)
    // the listed requests are a prefix, and the count line accounts for all the others
    ensures shown <= |items| && text == DigestWith(head, link, items, total, shown)
    ensures |items| <= total ==> shown <= total
    // a request is left out only because it would not fit with the count line behind it
    ensures shown < |items| ==> |DigestWith(head, link, items, total, shown + 1)| > CONTENT_MAX
    // the message fits exactly when the header, the link and "+total more" fit
    ensures |text| <= CONTENT_MAX <==> |head| + 1 + |link| + |MoreLine(total)| <= CONTENT_MAX
  {
    hide DigestLine, MoreLine;
    assert items[..0] == [];
    var listed := "";
    var used := |head| + 1 + |link|;
    var n: nat := 0;
    while n < |items|
      invariant n <= |items|
      invariant listed == Lines(items[..n])
      invariant used == |head| + |listed| + 1 + |link|
      invariant n > 0 ==> used + |MoreLine(total - n)| <= CONTENT_MAX
      invariant n > 0 ==> |head| + 1 + |link| + |MoreLine(total)| <= CONTENT_MAX
    {
      var line := DigestLine(items[n]);
      LinesNext(items, n);
      var more := |MoreLine(total - n - 1)|;
      if used + |line| + more > CONTENT_MAX {
        DigestLength(head, link, items, total, n + 1);
        break;
      }
      if n == 0 { MoreLineShrinks(total); }
      listed := listed + line;
      used := used + |line|;
      n := n + 1;
    }
    DigestLength(head, link, items, total, n);
    shown := n;
    text := head + listed + MoreLine(total - n) + "\n" + link;
  }

  lemma LinesNext(items: seq<Item>, n: nat)
    requires n < |items|
    ensures Lines(items[..n + 1]) == Lines(items[..n]) + DigestLine(items[n])
  {
    assert items[..n + 1][..n] == items[..n];
  }

  lemma DigestLength(head: string, link: string, items: seq<Item>, total: int, shown: nat)
    requires shown <= |items|
    ensures |DigestWith(head, link, items, total, shown)|
         == |head| + |Lines(items[..shown])| + |MoreLine(total - shown)| + 1 + |link|
  {}

  /** Listing one request saves at most eight runes of the count line. */
  lemma MoreLineShrinks(rest: int)
    ensures |MoreLine(rest)| <= |MoreLine(rest - 1)| + 8
  {
    if rest > 1 { DecimalGrows(rest - 1); }
  }

  lemma {:induction false} DecimalGrows(n: nat)
    ensures |Decimal(n + 1)| <= |Decimal(n)| + 1
  {
    if n >= 10 && (n + 1) / 10 != n / 10 { DecimalGrows(n / 10); }
  }

  // ---- the message of one request

  datatype Notice = Notice(prefix: string, title: string, context: string,
                            question: string, asked: string, link: string)

  /** closed is how the request closed, "" while it is open. */
  function NoticeText(x: Notice, closed: string): string {
    if closed != "" then
      x.prefix + ClipRunes(closed + "\n" + x.context + "\n" + x.link, CONTENT_MAX - |x.prefix|)
    else
      var head := x.prefix + x.title + x.context + "\n";
      var tail := "\n" + x.asked + "\n" + x.link;
      var room := CONTENT_MAX - |head| - |tail|;
      ClipRunes(head + ClipRunes(x.question, Max(room, 0)) + tail, CONTENT_MAX)
  }

  ghost predicate EndsWith(s: string, suffix: string) {
    |suffix| <= |s| && s[|s| - |suffix|..] == suffix
  }

  /** The console link of a request, or where to look without one. */
  function LinkLine(console: string, id: nat): (r: string)
    ensures r != "" && r[|r| - 1] != ELLIPSIS
  {
    if console == "" then
      if id > 0 then
        "Find request #" + Decimal(id) + " on the console's Decisions page or with `handoffkeep decisions list`."
      else "Find them on the console's Decisions page or with `handoffkeep decisions list`."
    else if id > 0 then console + "/ui/decisions/" + Decimal(id)
    else console + "/ui/decisions?tab=open"
  }

  /** While a request is open its message always fits, and the link survives exactly when
      everything but the question fits. */
  lemma OpenNotice(x: Notice, console: string, id: nat)
    requires x.link == LinkLine(console, id)
    ensures |NoticeText(x, "")| <= CONTENT_MAX
    ensures EndsWith(NoticeText(x, ""), x.link)
       <==> |x.prefix + x.title + x.context| + |x.asked| + |x.link| + 3 <= CONTENT_MAX
  {
    hide LinkLine;
    var text := NoticeText(x, "");
    var head := x.prefix + x.title + x.context + "\n";
    var tail := "\n" + x.asked + "\n" + x.link;
    var room := CONTENT_MAX - |head| - |tail|;
    var full := head + ClipRunes(x.question, Max(room, 0)) + tail;
    if room >= 0 {
      assert text == full;
      SuffixOf(head + ClipRunes(x.question, room) + "\n" + x.asked + "\n", x.link);
      assert full == head + ClipRunes(x.question, room) + "\n" + x.asked + "\n" + x.link;
    } else {
      assert |full| > CONTENT_MAX && text[|text| - 1] == ELLIPSIS;
      if EndsWith(text, x.link) { LastOfSuffix(text, x.link); }
    }
  }

  /** What is shown of the question, and what stands around it: all of a message that fits, and
      of one that does not as much of the question as there is room for. */
  lemma NoticeShows(x: Notice) returns (shown: string)
    requires |x.prefix + x.title + x.context + x.asked + x.link| + 3 <= CONTENT_MAX
    ensures NoticeText(x, "") == x.prefix + x.title + x.context + "\n" + shown + "\n" + x.asked + "\n" + x.link
    ensures var room := 2000 - 3 - |x.prefix| - |x.title| - |x.context| - |x.asked| - |x.link|;
            if |x.question| <= room then shown == x.question
            else |shown| == room && (room > 0 ==> shown[..room - 1] == x.question[..room - 1])
  {
    var head := x.prefix + x.title + x.context + "\n";
    var tail := "\n" + x.asked + "\n" + x.link;
    shown := ClipRunes(x.question, CONTENT_MAX - |head| - |tail|);
    assert NoticeText(x, "") == head + shown + tail;
    TailJoined(head + shown, x.asked, x.link);
  }

  lemma TailJoined(lead: string, asked: string, link: string)
    ensures lead + ("\n" + asked + "\n" + link) == lead + "\n" + asked + "\n" + link
  {}

  lemma SuffixOf(s: string, suffix: string)
    ensures EndsWith(s + suffix, suffix)
  {}

  lemma LastOfSuffix(s: string, suffix: string)
    requires suffix != "" && EndsWith(s, suffix)
    ensures s[|s| - 1] == suffix[|suffix| - 1]
  {
    assert s[|s| - |suffix|..][|suffix| - 1] == s[|s| - 1];
  }

  /** Once closed, the message fits exactly when the mention does; behind a mention that
      leaves room, the link survives exactly when nothing has to be cut. */
  lemma ClosedNotice(x: Notice, closed: string, console: string, id: nat)
    requires closed != "" && x.link == LinkLine(console, id)
    ensures |NoticeText(x, closed)| <= CONTENT_MAX <==> |x.prefix| <= CONTENT_MAX
    ensures |x.prefix| < CONTENT_MAX ==>
              (EndsWith(NoticeText(x, closed), x.link)
               <==> |x.prefix + closed + x.context + x.link| + 2 <= CONTENT_MAX)
  {
    hide LinkLine;
    var text := NoticeText(x, closed);
    var body := closed + "\n" + x.context + "\n" + x.link;
    if |x.prefix + body| <= CONTENT_MAX {
      SuffixOf(x.prefix + closed + "\n" + x.context + "\n", x.link);
      Behind(x.prefix, closed, x.context, x.link);
      assert text == x.prefix + closed + "\n" + x.context + "\n" + x.link;
    } else if |x.prefix| < CONTENT_MAX {
      assert text[|text| - 1] == ELLIPSIS;
      if EndsWith(text, x.link) { LastOfSuffix(text, x.link); }
    }
  }

  lemma Behind(prefix: string, closed: string, context: string, link: string)
    ensures prefix + (closed + "\n" + context + "\n" + link) == prefix + closed + "\n" + context + "\n" + link
  {}

  // ---- the announcement of a new issue

  function Announcement(head: string, question: string, tail: string): string {
    var room := CONTENT_MAX - |head| - 1 - |tail|;
    var shown := if |question| > room then question[..Max(Min(room - 1, |question|), 0)] + [ELLIPSIS] else question;
    head + shown + "\n" + tail
  }

  /** The options, deadline and link always arrive; but the message is within the limit
      exactly when a rune is left for the question, or the question is empty and nothing is. */
  lemma AnnouncementFits(head: string, question: string, tail: string)
    ensures EndsWith(Announcement(head, question, tail), tail) && head <= Announcement(head, question, tail)
    ensures |Announcement(head, question, tail)| <= CONTENT_MAX
       <==> (|head| + |tail| + 1 < CONTENT_MAX || (|head| + |tail| + 1 == CONTENT_MAX && question == ""))
    // the question arrives whole if it fits, else what of it does
    ensures |head| + |question| + 1 + |tail| <= 2000 ==>
              Announcement(head, question, tail) == head + question + "\n" + tail
    ensures |head| + |question| + 1 + |tail| > 2000 > |head| + 1 + |tail| ==>
              Announcement(head, question, tail) ==
                head + question[..1998 - |head| - |tail|] + [ELLIPSIS] + "\n" + tail
  {
    var text := Announcement(head, question, tail);
    assert text[|text| - |tail|..] == tail;
  }
}
