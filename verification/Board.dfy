/** linear_board.go: the marker-delimited board section of an issue description, which every
    rewrite replaces while keeping the operator's own text around it. */
module Board {
  import opened Common
  import opened Text

  const BOARD_START := "<!-- hk-work-board:start -->"
  const BOARD_END := "<!-- hk-work-board:end -->"
  const ESCAPED_START := "&lt;!-- hk-work-board:start --&gt;"
  const ESCAPED_END := "&lt;!-- hk-work-board:end --&gt;"

  datatype SectionError = NoStartMarker | NoEndMarker | MultipleSections

  /** A pair of markers and the texts that stand in for them inside a rendered board. */
  datatype Markers = Markers(start: string, end: string, escapedStart: string, escapedEnd: string) {
    /** What the proofs need of the four constants. */
    ghost predicate Valid() {
      && Marker(start) && Marker(end) && !Contains(start, end) && !Contains(end, start)
      && Escaped(escapedStart) && Escaped(escapedEnd)
    }

    function Replace(description: string, section: string): Result<string, SectionError> {
      match Index(description, start)
      case None =>
        if Index(description, end).Some? then Err(NoStartMarker)
        else Ok(description + "\n\n" + start + "\n" + section + "\n" + end)
      case Some(i) =>
        match Index(description[i..], end)
        case None => Err(NoEndMarker)
        case Some(j) =>
          var tail := description[i + j + |end|..];
          if Index(tail, start).Some? || Index(tail, end).Some? then Err(MultipleSections)
          else Ok(description[..i] + start + "\n" + section + "\n" + end + tail)
    }

    /** The operator rewrites the text before and after the section. */
    function Edited(d: string, before: string, after: string): string {
      match Index(d, start)
      case None => d
      case Some(i) =>
        match Index(d[i..], end)
        case None => d
        case Some(j) => before + d[i..i + j + |end|] + after
    }

    /** strings.NewReplacer: at each position the first listed pair that matches is replaced. */
    function Escape(text: string): string {
      if text == [] then []
      else if At(text, 0, start) && start != [] then escapedStart + Escape(text[|start|..])
      else if At(text, 0, end) && end != [] then escapedEnd + Escape(text[|end|..])
      else [text[0]] + Escape(text[1..])
    }

    ghost predicate Clean(s: string) {
      !Contains(s, start) && !Contains(s, end)
    }

    /** A description whose section text is s, between operator texts before and after. */
    function Compose(before: string, s: string, after: string): string {
      before + start + "\n" + s + "\n" + end + after
    }

    /** Operator text that may stand around a section. */
    ghost predicate Around(before: string, after: string) {
      !Contains(before, start) && Clean(after)
    }
  }

  ghost predicate Marker(m: string) {
    && m != [] && m[0] == '<'
    && forall i :: 0 < i < |m| ==>
         m[i] != '<' && m[i] != '&' && m[i] != '\n' && m[i] != '(' && m[i] != ')' && m[i] != '/'
  }

  ghost predicate Escaped(s: string) {
    s != [] && s[0] == '&' && '<' !in s
  }

  const BOARD := Markers(BOARD_START, BOARD_END, ESCAPED_START, ESCAPED_END)

  lemma StartIsMarker()
    ensures Marker(BOARD_START) && |BOARD_START| == 28 && BOARD_START[19] == 's'
  {}

  lemma EndIsMarker()
    ensures Marker(BOARD_END) && |BOARD_END| == 26 && BOARD_END[19] == 'e'
  {}

  lemma EscapesAreEscaped()
    ensures Escaped(ESCAPED_START) && Escaped(ESCAPED_END)
  {}

  /** The constants of the source satisfy what every proof below asks of a pair of markers. */
  lemma BoardMarkersValid()
    ensures BOARD.Valid()
  {
    StartIsMarker();
    EndIsMarker();
    EscapesAreEscaped();
    forall i: nat ensures !At(BOARD.end, i, BOARD.start) {}
    forall i: nat ensures !At(BOARD.start, i, BOARD.end) {
      AtIsPointwise(BOARD.start, i, BOARD.end);
      if i + |BOARD.end| <= |BOARD.start| {
        if i == 0 { assert BOARD.start[i + 19] != BOARD.end[19]; } else { assert BOARD.start[i + 0] != BOARD.end[0]; }
      }
    }
  }

  // ---- where a marker can occur

  predicate Separator(c: char) { c == '&' || c == '\n' || c == '(' || c == ')' || c == '/' }

  lemma JoinedAt(k: Markers, a: string, c: char, b: string)
    requires k.Valid() && Separator(c)
    ensures k.Clean(a + [c] + b) <==> (k.Clean(a) && k.Clean(b))
    ensures Contains(a + [c] + b, k.start) <==> (Contains(a, k.start) || Contains(b, k.start))
    ensures Contains(a + [c] + b, k.end) <==> (Contains(a, k.end) || Contains(b, k.end))
  {
    Barrier(a, c, b, k.start);
    Barrier(a, c, b, k.end);
  }

  /** A marker placed after marker-free text is the first one found. */
  lemma FirstMarker(x: string, m: string, rest: string)
    requires Marker(m) && !Contains(x, m)
    ensures Index(x + m + rest, m) == Some(|x|)
  {
    var s := x + m + rest;
    assert s[|x|..|x| + |m|] == m;
    assert At(s, |x|, m);
    forall j: nat | j < |x| ensures !At(s, j, m) {
      if j + |m| <= |x| {
        assert s == x + (m + rest);
        AtInConcat(x, m + rest, j, m);
      } else {
        AtIsPointwise(s, j, m);
        if j + |m| <= |s| { assert s[j + (|x| - j)] == '<'; }
      }
    }
  }

  // ---- escaping

  /** Past a marker's first character, what the escaped text shows is what the text had. */
  lemma {:induction false} EscapeReflects(k: Markers, text: string, m: string, from: nat)
    requires k.Valid() && (m == k.start || m == k.end) && 0 < from <= |m|
    requires At(k.Escape(text), 0, m[from..])
    ensures At(text, 0, m[from..])
  {
    var out, n := k.Escape(text), |m| - from;
    if n > 0 {
      assert out[..n] == m[from..] && m[from..][1..] == m[from + 1..];
      assert out[0] == out[..n][0] == m[from] && out[0] != '&';
      var rest := k.Escape(text[1..]);
      assert out == [text[0]] + rest;
      assert rest[..n - 1] == out[..n][1..];
      assert At(rest, 0, m[from + 1..]);
      EscapeReflects(k, text[1..], m, from + 1);
      assert m[from..] == [m[from]] + m[from + 1..];
      assert text[1..][..n - 1] == m[from + 1..];
      assert text[..n] == [text[0]] + text[1..][..n - 1];
    }
  }

  /** Escaping changes the markers and nothing else: text without one is as it was; */
  lemma {:induction false} EscapeOfClean(k: Markers, text: string)
    requires k.Valid() && k.Clean(text)
    ensures k.Escape(text) == text
    decreases |text|
  {
    if text != [] {
      assert text == [text[0]] + text[1..];
      PartsClean([text[0]], text[1..], k.start);
      PartsClean([text[0]], text[1..], k.end);
      EscapeOfClean(k, text[1..]);
      assert !At(text, 0, k.start) && !At(text, 0, k.end);
    }
  }

  /** and otherwise all before the first marker stands, its stand-in follows, and the rest is
      escaped alike. */
  lemma {:induction false} EscapeFirst(k: Markers, text: string, i: nat)
    requires k.Valid() && FirstOf(k, text, i)
    ensures k.Escape(text) == text[..i] + AfterMarker(k, text, i)
    decreases |text|
  {
    hide Markers.Escape, AfterMarker;
    EscapeHead(k, text);
    if i == 0 {
      assert text[..0] == [];
    } else {
      assert !At(text, 0, k.start) && !At(text, 0, k.end);
      FirstOfTail(k, text, i);
      EscapeFirst(k, text[1..], i - 1);
      assert i <= |text| && text == [text[0]] + text[1..];
      assert text[..i] == [text[0]] + text[1..][..i - 1];
    }
  }

  lemma EscapeHead(k: Markers, text: string)
    requires k.Valid()
    ensures At(text, 0, k.start) || At(text, 0, k.end) ==> k.Escape(text) == AfterMarker(k, text, 0)
    ensures text != [] && !At(text, 0, k.start) && !At(text, 0, k.end) ==>
              k.Escape(text) == [text[0]] + k.Escape(text[1..])
  {}

  lemma FirstOfTail(k: Markers, text: string, i: nat)
    requires i > 0 && FirstOf(k, text, i)
    ensures |text| > 0 && FirstOf(k, text[1..], i - 1) && AfterMarker(k, text[1..], i - 1) == AfterMarker(k, text, i)
  {
    hide Markers.Escape;
    assert |text| > 0;
    TailAt(text, i, k.start);
    TailAt(text, i, k.end);
    forall j: nat | j < i - 1 ensures !At(text[1..], j, k.start) && !At(text[1..], j, k.end) {
      TailAt(text, j + 1, k.start);
      TailAt(text, j + 1, k.end);
    }
    if At(text, i, k.start) {
      assert text[1..][i - 1 + |k.start|..] == text[i + |k.start|..];
    } else {
      assert text[1..][i - 1 + |k.end|..] == text[i + |k.end|..];
    }
  }

  function AfterMarker(k: Markers, text: string, i: nat): string
    requires At(text, i, k.start) || At(text, i, k.end)
  {
    if At(text, i, k.start) then k.escapedStart + k.Escape(text[i + |k.start|..])
    else k.escapedEnd + k.Escape(text[i + |k.end|..])
  }

  /** The first marker of the text is at i. */
  ghost predicate FirstOf(k: Markers, text: string, i: nat) {
    && (At(text, i, k.start) || At(text, i, k.end))
    && forall j: nat :: j < i ==> !At(text, j, k.start) && !At(text, j, k.end)
  }

  lemma TailAt(text: string, i: nat, m: string)
    requires text != [] && i > 0
    ensures At(text, i, m) <==> At(text[1..], i - 1, m)
  {
    assert text == [text[0]] + text[1..];
    AtInConcat([text[0]], text[1..], i, m);
  }

  /** An escaped text contains neither marker. */
  lemma {:induction false} EscapeClean(k: Markers, text: string)
    requires k.Valid()
    ensures k.Clean(k.Escape(text))
    decreases |text|
  {
    EscapeHasNo(k, text, k.start);
    EscapeHasNo(k, text, k.end);
  }

  lemma {:induction false} EscapeHasNo(k: Markers, text: string, m: string)
    requires k.Valid() && (m == k.start || m == k.end)
    ensures !Contains(k.Escape(text), m)
    decreases |text|
  {
    var out := k.Escape(text);
    if text != [] {
      if At(text, 0, k.start) || At(text, 0, k.end) {
        var n := if At(text, 0, k.start) then |k.start| else |k.end|;
        var head := if At(text, 0, k.start) then k.escapedStart else k.escapedEnd;
        EscapeHasNo(k, text[n..], m);
        JoinedAt(k, [], '&', head[1..] + k.Escape(text[n..]));
        AfterEscaped(head, k.Escape(text[n..]), m);
        assert out == head + k.Escape(text[n..]);
      } else {
        EscapeHasNo(k, text[1..], m);
        forall j: nat ensures !At(out, j, m) {
          if j == 0 {
            if At(out, 0, m) { HeadReflects(k, text, m); }
          } else {
            AtInConcat([text[0]], k.Escape(text[1..]), j, m);
          }
        }
      }
    }
  }

  lemma HeadReflects(k: Markers, text: string, m: string)
    requires k.Valid() && (m == k.start || m == k.end)
    requires text != [] && At([text[0]] + k.Escape(text[1..]), 0, m)
    ensures At(text, 0, m)
  {
    var rest, n := k.Escape(text[1..]), |m|;
    var out := [text[0]] + rest;
    assert out[..n] == m && m[1..] == out[..n][1..];
    assert rest[..n - 1] == out[..n][1..];
    assert At(rest, 0, m[1..]);
    EscapeReflects(k, text[1..], m, 1);
    assert text[0] == out[..n][0] == m[0];
    assert text[1..][..n - 1] == m[1..] && m == [m[0]] + m[1..];
    assert text[..n] == [text[0]] + text[1..][..n - 1];
  }

  lemma AfterEscaped(head: string, rest: string, m: string)
    requires Escaped(head) && Marker(m) && !Contains(rest, m)
    ensures !Contains(head + rest, m)
  {
    forall j: nat ensures !At(head + rest, j, m) {
      if j < |head| {
        AtIsPointwise(head + rest, j, m);
        if j + |m| <= |head + rest| { assert (head + rest)[j + 0] == head[j] != '<'; }
      } else {
        AtInConcat(head, rest, j, m);
      }
    }
  }

  // ---- the task link put into the rendered section

  function TrimSlashes(s: string): (t: string)
    ensures t <= s && (t != [] ==> t[|t| - 1] != '/') && forall i :: |t| <= i < |s| ==> s[i] == '/'
  {
    if s != [] && s[|s| - 1] == '/' then TrimSlashes(s[..|s| - 1]) else s
  }

  /** sync: with a base URL, the first "[hk-task:N]" of the section becomes a link. */
  function LinkTask(section: string, taskId: nat, base: string): string {
    var tag := TaskTag(taskId);
    match Index(section, tag)
    case Some(i) =>
      if base == "" then section
      else
        section[..i + |tag|] + "(" + TrimSlashes(base) + "/ui/tasks/" + Decimal(taskId) + ")" + section[i + |tag|..]
    case None => section
  }

  /** The link is put right after the first tag, and nothing else of the section changes; without
      a base URL or a tag nothing does. */
  lemma LinkedAfterTag(section: string, taskId: nat, base: string, i: nat)
    ensures base == "" || !Contains(section, TaskTag(taskId)) ==> LinkTask(section, taskId, base) == section
    ensures base != "" && FirstAt(section, i, TaskTag(taskId)) ==>
              var p := i + |TaskTag(taskId)|;
              LinkTask(section, taskId, base) ==
                section[..p] + "(" + TrimSlashes(base) + "/ui/tasks/" + Decimal(taskId) + ")" + section[p..]
  {
    hide Decimal, TrimSlashes;
    if FirstAt(section, i, TaskTag(taskId)) { assert Index(section, TaskTag(taskId)) == Some(i); }
  }

  function TaskTag(taskId: nat): string { "[hk-task:" + Decimal(taskId) + "]" }

  ghost predicate FirstAt(s: string, i: nat, pattern: string) {
    At(s, i, pattern) && forall j: nat :: j < i ==> !At(s, j, pattern)
  }

  /** The section sync writes: the rendered text escaped, then linked. */
  function BoardSection(rendered: string, taskId: nat, base: string): string {
    LinkTask(BOARD.Escape(rendered), taskId, base)
  }

  lemma NoMarkerWithoutLess(k: Markers, s: string)
    requires k.Valid() && '<' !in s
    ensures k.Clean(s)
  {
    WithoutFirstChar(s, k.start);
    WithoutFirstChar(s, k.end);
  }

  lemma InsertClean(k: Markers, s: string, p: nat, url: string)
    requires k.Valid() && k.Clean(s) && k.Clean(url) && p <= |s|
    ensures k.Clean(s[..p] + "(" + url + ")" + s[p..])
  {
    PrefixClean(k, s, p);
    JoinedAt(k, url, ')', s[p..]);
    var suffix := url + [')'] + s[p..];
    JoinedAt(k, s[..p], '(', suffix);
    assert s[..p] + "(" + url + ")" + s[p..] == s[..p] + ['('] + suffix;
  }

  lemma PrefixClean(k: Markers, s: string, p: nat)
    requires k.Clean(s) && p <= |s|
    ensures k.Clean(s[..p]) && k.Clean(s[p..])
  {
    assert s == s[..p] + s[p..];
    PartsClean(s[..p], s[p..], k.start);
    PartsClean(s[..p], s[p..], k.end);
  }

  lemma LinkClean(k: Markers, section: string, taskId: nat, base: string)
    requires k.Valid() && k.Clean(section) && k.Clean(base)
    ensures k.Clean(LinkTask(section, taskId, base))
  {
    var host, path := TrimSlashes(base), "ui/tasks/" + Decimal(taskId);
    assert host == base[..|host|];
    PrefixClean(k, base, |host|);
    NoMarkerWithoutLess(k, path);
    JoinedAt(k, host, '/', path);
    var url := host + ['/'] + path;
    var tag := TaskTag(taskId);
    match Index(section, tag)
    case Some(i) =>
      InsertClean(k, section, i + |tag|, url);
      UrlParts(section[..i + |tag|], host, Decimal(taskId), section[i + |tag|..]);
    case None =>
  }

  lemma UrlParts(a: string, host: string, id: string, c: string)
    ensures a + "(" + (host + ['/'] + ("ui/tasks/" + id)) + ")" + c == a + "(" + host + "/ui/tasks/" + id + ")" + c
  {
    assert "/ui/tasks/" == ['/'] + "ui/tasks/";
    assert host + ['/'] + ("ui/tasks/" + id) == host + "/ui/tasks/" + id;
    assert a + "(" + (host + "/ui/tasks/" + id) == a + "(" + host + "/ui/tasks/" + id;
  }

  /** Whatever the task's fields hold, the section contains no marker. */
  lemma SectionClean(rendered: string, taskId: nat, base: string)
    requires BOARD.Clean(base)
    ensures BOARD.Clean(BoardSection(rendered, taskId, base))
  {
    BoardMarkersValid();
    EscapeClean(BOARD, rendered);
    LinkClean(BOARD, BOARD.Escape(rendered), taskId, base);
  }

  // ---- replacing the section

  lemma Located(k: Markers, before: string, inner: string, after: string)
    requires k.Valid() && !Contains(before, k.start) && !Contains(k.start + inner, k.end)
    ensures var d, lead := before + k.start + inner + k.end + after, k.start + inner;
            && Index(d, k.start) == Some(|before|)
            && d[..|before|] == before && d[|before|..] == lead + k.end + after
            && Index(d[|before|..], k.end) == Some(|lead|)
            && d[|before| + |lead| + |k.end|..] == after
  {
    var d := before + k.start + inner + k.end + after;
    var rest := inner + k.end + after;
    assert d == before + k.start + rest;
    FirstMarker(before, k.start, rest);
    var lead := k.start + inner;
    assert d[|before|..] == lead + k.end + after;
    FirstMarker(lead, k.end, after);
  }

  /** Where a rewrite finds the section, and what it makes of it. */
  lemma ReplaceAt(k: Markers, before: string, inner: string, after: string, section: string)
    requires k.Valid() && !Contains(before, k.start) && !Contains(k.start + inner, k.end)
    ensures var d := before + k.start + inner + k.end + after;
            k.Replace(d, section) ==
              (if k.Clean(after) then Ok(k.Compose(before, section, after)) else Err(MultipleSections))
  {
    Located(k, before, inner, after);
  }

  lemma InnerHasNoEnd(k: Markers, body: string)
    requires k.Valid() && k.Clean(body)
    ensures !Contains(k.start + ("\n" + body + "\n"), k.end)
  {
    NoMarkerWithoutLess(k, "");
    JoinedAt(k, body, '\n', "");
    var line := body + ['\n'] + "";
    JoinedAt(k, k.start, '\n', line);
    assert k.start + ("\n" + body + "\n") == k.start + ['\n'] + line;
  }

  /** A rewrite touches nothing outside the section, and is never refused. */
  lemma ReplaceComposed(k: Markers, before: string, body: string, after: string, section: string)
    requires k.Valid() && k.Around(before, after) && k.Clean(body)
    ensures k.Replace(k.Compose(before, body, after), section) == Ok(k.Compose(before, section, after))
  {
    InnerHasNoEnd(k, body);
    var inner := "\n" + body + "\n";
    ReplaceAt(k, before, inner, after, section);
    ComposeParts(k, before, body, after);
  }

  /** The operator's text around the section, as the first rewrite finds it. */
  function Outside(k: Markers, description: string): (string, string) {
    match Index(description, k.start)
    case None => (description + "\n\n", "")
    case Some(i) =>
      match Index(description[i..], k.end)
      case None => (description[..i], "")
      case Some(j) => (description[..i], description[i + j + |k.end|..])
  }

  lemma AppendedAround(k: Markers, description: string)
    requires k.Valid() && !Contains(description, k.start)
    ensures k.Around(description + "\n\n", "")
  {
    NoMarkerWithoutLess(k, "");
    NoMarkerWithoutLess(k, "\n");
    JoinedAt(k, description, '\n', "\n");
    assert description + "\n\n" == description + ['\n'] + "\n";
  }

  lemma BeforeFirst(s: string, m: string, i: nat)
    requires m != [] && Index(s, m) == Some(i)
    ensures !Contains(s[..i], m)
  {
    assert s == s[..i] + s[i..];
    forall j: nat ensures !At(s[..i], j, m) {
      if j + |m| <= i { AtInConcat(s[..i], s[i..], j, m); assert j < i; }
    }
  }

  lemma FirstRewrite(k: Markers, description: string, section: string)
    requires k.Valid() && k.Replace(description, section).Ok?
    ensures var (before, after) := Outside(k, description);
            k.Around(before, after) && k.Replace(description, section) == Ok(k.Compose(before, section, after))
  {
    match Index(description, k.start)
    case None =>
      AppendedAround(k, description);
      assert k.Compose(description + "\n\n", section, "")
          == description + "\n\n" + k.start + "\n" + section + "\n" + k.end;
    case Some(i) =>
      BeforeFirst(description, k.start, i);
  }

  /** Exactly the descriptions a rewrite accepts: no marker at all, or one start marker whose
      first end marker after it is followed by no marker. */
  ghost predicate Accepts(k: Markers, d: string) {
    k.Clean(d) || exists before, inner, after :: Sectioned(k, d, before, inner, after)
  }

  ghost predicate Sectioned(k: Markers, d: string, before: string, inner: string, after: string) {
    && d == before + k.start + inner + k.end + after
    && k.Around(before, after) && !Contains(k.start + inner, k.end)
  }

  lemma AcceptedExactly(k: Markers, d: string, section: string)
    requires k.Valid()
    ensures k.Replace(d, section).Ok? <==> Accepts(k, d)
  {
    if Accepts(k, d) { AcceptedIsReplaced(k, d, section); }
    if k.Replace(d, section).Ok? { ReplacedIsAccepted(k, d, section); }
  }

  lemma AcceptedIsReplaced(k: Markers, d: string, section: string)
    requires k.Valid() && Accepts(k, d)
    ensures k.Replace(d, section).Ok?
  {
    if !k.Clean(d) {
      var before, inner, after :| Sectioned(k, d, before, inner, after);
      ReplaceAt(k, before, inner, after, section);
    }
  }

  lemma ReplacedIsAccepted(k: Markers, d: string, section: string)
    requires k.Valid() && k.Replace(d, section).Ok?
    ensures Accepts(k, d)
  {
    match Index(d, k.start)
    case None => assert !Contains(d, k.start) && Index(d, k.end).None? && !Contains(d, k.end);
    case Some(i) =>
      var j := Index(d[i..], k.end).value;
      var tail := d[i + j + |k.end|..];
      assert Index(tail, k.start).None? && Index(tail, k.end).None?;
      SplitAccepted(k, d, i, j);
  }

  lemma SplitAccepted(k: Markers, d: string, i: nat, j: nat)
    requires k.Valid() && Index(d, k.start) == Some(i) && Index(d[i..], k.end) == Some(j)
    requires k.Clean(d[i + j + |k.end|..])
    ensures Accepts(k, d)
  {
    BeforeFirst(d, k.start, i);
    BeforeFirst(d[i..], k.end, j);
    FirstMarkerEnds(k, d, i, j);
    var inner := d[i..][|k.start|..j];
    Reassembled(d, i, j, k.start, k.end);
    SectionedAccepts(k, d, d[..i], inner, d[i + j + |k.end|..]);
  }

  lemma FirstMarkerEnds(k: Markers, d: string, i: nat, j: nat)
    requires k.Valid() && At(d, i, k.start) && At(d[i..], j, k.end)
    ensures At(d[i..], 0, k.start) && |k.start| <= j
  {
    assert d[i..][..|k.start|] == d[i..i + |k.start|];
    if j < |k.start| { MarkersApart(k, d[i..], j); }
  }

  lemma SectionedAccepts(k: Markers, d: string, before: string, inner: string, after: string)
    requires d == before + k.start + inner + k.end + after
    requires k.Around(before, after) && !Contains(k.start + inner, k.end)
    ensures Accepts(k, d)
  {
    assert Sectioned(k, d, before, inner, after);
  }

  lemma Reassembled(d: string, i: nat, j: nat, start: string, end: string)
    requires i <= |d| && At(d[i..], 0, start) && At(d[i..], j, end) && |start| <= j
    ensures d == d[..i] + start + d[i..][|start|..j] + end + d[i + j + |end|..]
    ensures d[i..][..j] == start + d[i..][|start|..j]
  {
    var s := d[i..];
    assert s == s[0..0 + |start|] + s[|start|..j] + s[j..j + |end|] + s[j + |end|..];
    assert s[j + |end|..] == d[i + j + |end|..];
    assert d == d[..i] + s;
  }

  /** The two markers never overlap. */
  lemma MarkersApart(k: Markers, s: string, j: nat)
    requires k.Valid() && At(s, 0, k.start) && j < |k.start|
    ensures !At(s, j, k.end)
  {
    AtIsPointwise(s, 0, k.start);
    AtIsPointwise(s, j, k.end);
    if j > 0 {
      assert s[0 + j] == k.start[j];
      assert j + |k.end| <= |s| ==> s[j + 0] != k.end[0];
    } else if |k.end| <= |k.start| {
      AtIsPointwise(k.start, 0, k.end);
      assert !At(k.start, 0, k.end);
      var p :| 0 <= p < |k.end| && k.start[0 + p] != k.end[p];
      assert s[0 + p] == k.start[p];
    } else {
      AtIsPointwise(k.end, 0, k.start);
      assert !At(k.end, 0, k.start);
      var p :| 0 <= p < |k.start| && k.end[0 + p] != k.start[p];
      assert s[0 + p] == k.start[p];
    }
  }

  // ---- runs of updates

  /** What happens to a description: a rewrite with a rendered board, or the operator
      editing the text around the section. */
  datatype Step =
    | Update(rendered: string, taskId: nat, base: string)
    | Edit(before: string, after: string)

  function Apply(d: string, step: Step): Result<string, SectionError>
  {
    match step
    case Update(rendered, taskId, base) => BOARD.Replace(d, BoardSection(rendered, taskId, base))
    case Edit(before, after) => Ok(BOARD.Edited(d, before, after))
  }

  function Run(d: string, steps: seq<Step>): Result<string, SectionError>
    decreases |steps|
  {
    if steps == [] then Ok(d)
    else
      var before := Run(d, steps[..|steps| - 1]);
      if before.Err? then before else Apply(before.value, steps[|steps| - 1])
  }

  /** The base URL is marker-free, and the operator adds no marker of its own. */
  ghost predicate Allowed(step: Step) {
    match step
    case Update(_, _, base) => BOARD.Clean(base)
    case Edit(before, after) => BOARD.Around(before, after)
  }

  /** The operator text in force after a run: what the last edit wrote, else what the first
      rewrite found. */
  function OperatorText(d: string, steps: seq<Step>): (string, string)
    decreases |steps|
  {
    if steps == [] then Outside(BOARD, d)
    else match steps[|steps| - 1]
      case Edit(before, after) => (before, after)
      case Update(_, _, _) => OperatorText(d, steps[..|steps| - 1])
  }

  /** The section in force after a run: what the last rewrite wrote. */
  function LastSection(first: string, steps: seq<Step>): string
    decreases |steps|
  {
    if steps == [] then first
    else match steps[|steps| - 1]
      case Edit(_, _) => LastSection(first, steps[..|steps| - 1])
      case Update(rendered, taskId, base) => BoardSection(rendered, taskId, base)
  }

  /** Once a first rewrite is accepted no later one is refused, and after any run of rewrites
      and edits the description is the operator's text around the newest section. */
  lemma {:induction false} RunsKeepOperatorText(d: string, first: Step, steps: seq<Step>)
    requires first.Update? && Allowed(first) && Apply(d, first).Ok?
    requires forall i :: 0 <= i < |steps| ==> Allowed(steps[i])
    ensures var (before, after) := OperatorText(d, steps);
            var section := LastSection(BoardSection(first.rendered, first.taskId, first.base), steps);
            && BOARD.Around(before, after) && BOARD.Clean(section)
            && Run(Apply(d, first).value, steps) == Ok(BOARD.Compose(before, section, after))
    decreases |steps|
  {
    BoardMarkersValid();
    var section := BoardSection(first.rendered, first.taskId, first.base);
    if steps == [] {
      SectionClean(first.rendered, first.taskId, first.base);
      FirstRewrite(BOARD, d, section);
    } else {
      var init := steps[..|steps| - 1];
      RunsKeepOperatorText(d, first, init);
      var (before, after) := OperatorText(d, init);
      var shown := LastSection(section, init);
      match steps[|steps| - 1]
      case Update(rendered, taskId, base) =>
        SectionClean(rendered, taskId, base);
        ReplaceComposed(BOARD, before, shown, after, BoardSection(rendered, taskId, base));
      case Edit(b, a) =>
        EditComposed(BOARD, before, shown, after, b, a);
    }
  }

  lemma EditComposed(k: Markers, before: string, shown: string, after: string, b: string, a: string)
    requires k.Valid() && k.Around(before, after) && k.Clean(shown)
    ensures k.Edited(k.Compose(before, shown, after), b, a) == k.Compose(b, shown, a)
  {
    var body := "\n" + shown + "\n";
    var d := before + k.start + body + k.end + after;
    InnerHasNoEnd(k, shown);
    Located(k, before, body, after);
    var lead := k.start + body;
    assert d[|before|..|before| + |lead| + |k.end|] == d[|before|..][..|lead| + |k.end|] == lead + k.end;
    ComposeParts(k, before, shown, after);
    ComposeParts(k, b, shown, a);
  }

  lemma ComposeParts(k: Markers, before: string, shown: string, after: string)
    ensures k.Compose(before, shown, after) == before + k.start + ("\n" + shown + "\n") + k.end + after
    ensures k.Compose(before, shown, after) == before + (k.start + ("\n" + shown + "\n") + k.end) + after
  {}

  /** A later rewrite overwrites an earlier one. */
  lemma PutPut(k: Markers, d: string, earlier: string, later: string)
    requires k.Valid() && k.Clean(earlier) && k.Replace(d, earlier).Ok?
    ensures k.Replace(k.Replace(d, earlier).value, later) == k.Replace(d, later)
  {
    FirstRewrite(k, d, earlier);
    AcceptedExactly(k, d, earlier);
    AcceptedExactly(k, d, later);
    FirstRewrite(k, d, later);
    var (before, after) := Outside(k, d);
    ReplaceComposed(k, before, earlier, after, later);
  }
}
