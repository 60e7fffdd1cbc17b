/** The commit feed's client logic (src/components/commit-feed.tsx): the full
    message shown for a commit, the query the feed sends to
    `GET /api/commits`, and the state changes of the range controls (the
    custom-range calendar, its Clear button, and the 7/30/60-day toggle).

    Calendar dates are local day numbers; `format(day, "yyyy-MM-dd")` is the
    parameter `formatDay`. A query is its list of name/value pairs, in the
    order they are set; their URL encoding is not modelled. */
module CommitFeed {
  import opened Wrappers
  import opened Text
  import opened Types
  import opened GitHub
  import CommitsRoute

  const CUSTOM_RANGE_MAX_DAYS: int := 60
  const MAX_CUSTOM_RANGE_MESSAGE: string := "Max custom range is 60 days."

  // ---------------------------------------------------------------------
  // The full message

  /** `getFullMessage`: the subject and the body, the empty ones left out,
      joined by a blank line. */
  function GetFullMessage(commit: CommitItem): (r: string)
    ensures commit.messageSubject == "" && commit.messageBody == "" ==> r == ""
    ensures commit.messageSubject != "" && commit.messageBody == "" ==> r == commit.messageSubject
    ensures commit.messageSubject == "" && commit.messageBody != "" ==> r == commit.messageBody
    ensures commit.messageSubject != "" && commit.messageBody != "" ==>
      r == commit.messageSubject + "\n\n" + commit.messageBody
  {
    var parts := (if commit.messageSubject != "" then [commit.messageSubject] else [])
               + (if commit.messageBody != "" then [commit.messageBody] else []);
    assert |parts| == 2 ==> parts[1..] == [commit.messageBody] && Join(parts[1..], "\n\n") == commit.messageBody;
    Join(parts, "\n\n")
  }

  /** Splitting the full message with the server's `splitCommitMessage`
      gives the subject and body back, provided the subject is non-empty, is
      one line and does not end in a carriage return, and the body is
      trimmed and holds no carriage-return/line-feed pair. Without the
      first condition it fails: see `EmptySubjectMoves`. */
  lemma FullMessageRoundTrip(commit: CommitItem)
    requires commit.messageSubject != "" && '\n' !in commit.messageSubject
    requires commit.messageSubject[|commit.messageSubject| - 1] != '\r'
    requires Trim(commit.messageBody) == commit.messageBody
    requires NormalizeCrlf(commit.messageBody) == commit.messageBody
    ensures SplitCommitMessage(GetFullMessage(commit)) == SplitMessage(commit.messageSubject, commit.messageBody)
  {
    var subject, body := commit.messageSubject, commit.messageBody;
    if body == "" {
      SplitCommitMessageBody(subject);
    } else {
      TwoPartSplit(subject, body);
    }
  }

  /** A message that starts with a line feed has an empty subject. */
  lemma LeadingFeedSplit()
    ensures SplitCommitMessage("\nbody") == SplitMessage("", "body")
  {
    var m := "\n" + "body";
    SplitCommitMessageSubject(m);
    FirstNewlineAt(m, 0);
    SplitCommitMessageBody(m);
    assert m[1..] == "body";
    CleanBody();
  }

  /** `body` has no carriage return to normalise and no white space to trim. */
  lemma CleanBody()
    ensures Trim(NormalizeCrlf("body")) == "body"
  {
    assert NormalizeCrlf("body") == "body";
    assert TrimStart("body") == "body";
    assert TrimEnd("body") == "body";
  }

  /** So the commit stored for `"\nbody"` has an empty subject; its full
      message is the body alone, which splits back as a subject. */
  lemma EmptySubjectMoves(commit: CommitItem)
    requires commit.messageSubject == "" && commit.messageBody == "body"
    ensures SplitCommitMessage("\nbody") == SplitMessage(commit.messageSubject, commit.messageBody)
    ensures GetFullMessage(commit) == "body"
    ensures SplitCommitMessage(GetFullMessage(commit)) == SplitMessage("body", "")
  {
    LeadingFeedSplit();
    SplitCommitMessageBody("body");
  }

  /** A one-line subject, a blank line and a normalised, trimmed body split
      back into that subject and body. */
  lemma TwoPartSplit(subject: string, body: string)
    requires subject != "" && '\n' !in subject && subject[|subject| - 1] != '\r'
    requires Trim(body) == body && NormalizeCrlf(body) == body
    ensures SplitCommitMessage(subject + "\n\n" + body) == SplitMessage(subject, body)
  {
    var full := subject + "\n\n" + body;
    assert full[..|subject|] == subject;
    FirstNewlineAt(full, |subject|);
    SplitCommitMessageSubject(full);
    assert full[|subject|] in full;
    SplitCommitMessageBody(full);
    assert full[|subject| + 1..] == "\n" + body;
    assert NormalizeCrlf("\n" + body) == "\n" + body;
    assert TrimStart("\n" + body) == TrimStart(body);
  }

  /** The first line feed is at `i` when `s[i]` is one and none comes
      before. */
  lemma {:induction false} FirstNewlineAt(s: string, i: nat)
    requires i < |s| && s[i] == '\n' && '\n' !in s[..i]
    ensures FirstNewline(s) == i
    decreases i
  {
    if i > 0 {
      assert s[0] in s[..i];
      assert s[1..][..i - 1] == s[1..i];
      assert forall c :: c in s[1..i] ==> c in s[..i];
      FirstNewlineAt(s[1..], i - 1);
    }
  }

  // ---------------------------------------------------------------------
  // The request query

  datatype RangeMode = Days7 | Days30 | Days60 | Custom {
    function Text(): string {
      match this
      case Days7 => "7"
      case Days30 => "30"
      case Days60 => "60"
      case Custom => "custom"
    }
  }

  /** A calendar selection, as the range picker reports it: `from` and `to`
      may each be missing. */
  datatype PickedRange = PickedRange(from: Option<int>, to: Option<int>)

  /** The `requestQuery` builder: `repo` first, then either the custom dates
      (the end defaulting to the start) or the range mode. */
  function QueryFor(repo: string, mode: RangeMode, custom: Option<PickedRange>, formatDay: int -> string): (q: seq<(string, string)>)
    ensures |q| >= 2 && q[0] == ("repo", repo)
    ensures mode == Custom && custom.Some? && custom.value.from.Some? ==>
      var from := custom.value.from.value;
      q == [("repo", repo), ("since", formatDay(from)), ("until", formatDay(custom.value.to.GetOr(from)))]
    ensures !(mode == Custom && custom.Some? && custom.value.from.Some?) ==>
      q == [("repo", repo), ("range", mode.Text())]
  {
    if mode == Custom && custom.Some? && custom.value.from.Some? then
      var from := custom.value.from.value;
      var to := custom.value.to.GetOr(from);
      [("repo", repo), ("since", formatDay(from)), ("until", formatDay(to))]
    else [("repo", repo), ("range", mode.Text())]
  }

  /** `URLSearchParams.get`: the first value under `name`. */
  function Param(q: seq<(string, string)>, name: string): (r: Option<string>)
    ensures r.Some? <==> exists i :: 0 <= i < |q| && q[i].0 == name
    decreases |q|
  {
    if q == [] then None
    else if q[0].0 == name then Some(q[0].1)
    else Param(q[1..], name)
  }

  /** The parameter names are distinct. */
  lemma ParamNamesDiffer()
    ensures "repo" != "since" && "repo" != "until" && "repo" != "range"
    ensures "since" != "until" && "since" != "range" && "until" != "range"
    ensures "tz" != "repo" && "tz" != "range" && "tz" != "since" && "tz" != "until"
    ensures "page" != "repo" && "page" != "range" && "page" != "since" && "page" != "until"
  {
    assert "since"[0] != "until"[0] && "since"[0] != "range"[0] && "until"[0] != "range"[0];
    assert "repo"[0] != "page"[0];
  }

  /** A word with no white space at either end is its own trim. */
  lemma TrimWord(s: string)
    requires s != [] && !IsJsWhitespace(s[0]) && !IsJsWhitespace(s[|s| - 1])
    ensures Trim(s) == s
  {
    TrimKeeps(s);
  }

  /** What each parameter of a built query reads. */
  lemma QueryParams(repo: string, mode: RangeMode, custom: Option<PickedRange>, formatDay: int -> string)
    ensures var q := QueryFor(repo, mode, custom, formatDay);
      && Param(q, "repo") == Some(repo)
      && Param(q, "tz") == None && Param(q, "page") == None
      && (|q| == 3 ==> Param(q, "since") == Some(q[1].1) && Param(q, "until") == Some(q[2].1) && Param(q, "range") == None)
      && (|q| == 2 ==> Param(q, "range") == Some(q[1].1) && Param(q, "since") == None && Param(q, "until") == None)
  {
    ParamNamesDiffer();
    var q := QueryFor(repo, mode, custom, formatDay);
    assert q[1..][1..] == q[2..];
    if |q| == 3 {
      assert q[2..][1..] == [];
      assert q[2..][0] == q[2];
      assert Param(q[2..], "until") == Some(q[2].1);
      assert Param(q[1..], "until") == Param(q[2..], "until");
    }
  }

  /** The query always names the repository and carries exactly one of the
      two range forms: both custom dates, or the range. */
  lemma QueryForms(repo: string, mode: RangeMode, custom: Option<PickedRange>, formatDay: int -> string)
    ensures var q := QueryFor(repo, mode, custom, formatDay);
      && Param(q, "repo") == Some(repo)
      && (Param(q, "since").Some? <==> Param(q, "until").Some?)
      && (Param(q, "since").Some? <==> Param(q, "range").None?)
      && (Param(q, "since").Some? <==> mode == Custom && custom.Some? && custom.value.from.Some?)
  {
    QueryParams(repo, mode, custom, formatDay);
  }

  /** A custom selection with no end asks for the one day it starts on. */
  lemma OpenEndedIsOneDay(repo: string, from: int, formatDay: int -> string)
    ensures var q := QueryFor(repo, Custom, Some(PickedRange(Some(from), None)), formatDay);
      Param(q, "since") == Param(q, "until") == Some(formatDay(from))
  {
    QueryParams(repo, Custom, Some(PickedRange(Some(from), None)), formatDay);
  }

  /** The query as the route reads it. */
  function RouteQuery(q: seq<(string, string)>): CommitsRoute.Query {
    CommitsRoute.Query(Param(q, "repo"), Param(q, "range"), Param(q, "since"), Param(q, "until"), Param(q, "tz"), Param(q, "page"))
  }

  /** In custom mode with no selected range (the calendar selection taken
      back) the feed asks for `range=custom`, which the route refuses as an
      invalid range. */
  lemma CustomWithoutRangeIsRefused(repo: string, formatDay: int -> string, toNumber: string -> CommitsRoute.JsNumber, nowMs: int)
    requires toNumber("custom").NonFinite?
    ensures QueryFor(repo, Custom, None, formatDay) == [("repo", repo), ("range", "custom")]
    ensures CommitsRoute.Validate(RouteQuery(QueryFor(repo, Custom, None, formatDay)), toNumber, nowMs)
      == Failure(CommitsRoute.BAD_RANGE_MESSAGE)
  {
    QueryParams(repo, Custom, None, formatDay);
    var q := RouteQuery(QueryFor(repo, Custom, None, formatDay));
    assert q.range == Some("custom") && q.since == None && q.until == None;
    TrimWord("custom");
    assert CommitsRoute.TrimParam(q.range) == Some("custom");
  }

  // ---------------------------------------------------------------------
  // The range controls

  /** The feed's range state. */
  class FeedState {
    var selectedRepo: string
    var rangeMode: RangeMode
    var customRange: Option<PickedRange>
    var customOpen: bool
    var rangeError: Option<string>

    /** All projects, the last 7 days, no custom range, no error. */
    constructor ()
      ensures selectedRepo == "all" && rangeMode == Days7 && customRange == None
      ensures !customOpen && rangeError == None
    {
      selectedRepo := "all";
      rangeMode := Days7;
      customRange := None;
      customOpen := false;
      rangeError := None;
    }

    /** The query for the current state. */
    function RequestQuery(formatDay: int -> string): (q: seq<(string, string)>)
      reads this
      ensures q == QueryFor(selectedRepo, rangeMode, customRange, formatDay)
    {
      QueryFor(selectedRepo, rangeMode, customRange, formatDay)
    }

    /** `onSelectCustomRange`. The error is cleared first. A selection
        without a start clears the custom range and keeps the mode. Otherwise
        the mode becomes custom and the range is stored with its end (the
        start when missing); a range of more than 60 days is cut to the 60
        days from its start, with the error set and the calendar closed; a
        shorter one closes the calendar only once it has an end. */
    method OnSelectCustomRange(range: Option<PickedRange>)
      modifies this
      ensures selectedRepo == old(selectedRepo)
      ensures range.None? || range.value.from.None? ==>
        && customRange == None && rangeError == None
        && rangeMode == old(rangeMode) && customOpen == old(customOpen)
      ensures range.Some? && range.value.from.Some? ==>
        var from := range.value.from.value;
        var to := range.value.to.GetOr(from);
        && rangeMode == Custom
        && (to - from + 1 > CUSTOM_RANGE_MAX_DAYS ==>
              && customRange == Some(PickedRange(Some(from), Some(from + CUSTOM_RANGE_MAX_DAYS - 1)))
              && rangeError == Some(MAX_CUSTOM_RANGE_MESSAGE) && !customOpen)
        && (to - from + 1 <= CUSTOM_RANGE_MAX_DAYS ==>
              && customRange == Some(PickedRange(Some(from), Some(to)))
              && rangeError == None
              && customOpen == (if range.value.to.Some? then false else old(customOpen)))
      ensures customRange.Some? ==>
        && customRange.value.from.Some? && customRange.value.to.Some?
        && customRange.value.to.value - customRange.value.from.value + 1 <= CUSTOM_RANGE_MAX_DAYS
    {
      rangeError := None;
      if range.None? || range.value.from.None? {
        customRange := None;
        return;
      }
      var from := range.value.from.value;
      var to := range.value.to.GetOr(from);
      var daysInclusive := to - from + 1;
      if daysInclusive > CUSTOM_RANGE_MAX_DAYS {
        rangeError := Some(MAX_CUSTOM_RANGE_MESSAGE);
        customRange := Some(PickedRange(Some(from), Some(from + CUSTOM_RANGE_MAX_DAYS - 1)));
        rangeMode := Custom;
        customOpen := false;
        return;
      }
      customRange := Some(PickedRange(Some(from), Some(to)));
      rangeMode := Custom;
      if range.value.to.Some? {
        customOpen := false;
      }
    }

    /** The Clear button: back to the last 7 days, no custom range, no
        error, calendar closed. */
    method Clear()
      modifies this
      ensures selectedRepo == old(selectedRepo)
      ensures rangeMode == Days7 && customRange == None && rangeError == None && !customOpen
    {
      customRange := None;
      rangeError := None;
      rangeMode := Days7;
      customOpen := false;
    }

    /** The preset toggle: "7", "30" and "60" pick that preset; anything
        else (the toggle deselected) changes nothing. */
    method OnToggle(value: string)
      modifies this
      ensures selectedRepo == old(selectedRepo) && customRange == old(customRange)
      ensures customOpen == old(customOpen) && rangeError == old(rangeError)
      ensures value == "7" ==> rangeMode == Days7
      ensures value == "30" ==> rangeMode == Days30
      ensures value == "60" ==> rangeMode == Days60
      ensures value != "7" && value != "30" && value != "60" ==> rangeMode == old(rangeMode)
    {
      if value == "7" {
        rangeMode := Days7;
      } else if value == "30" {
        rangeMode := Days30;
      } else if value == "60" {
        rangeMode := Days60;
      }
    }
  }
}
