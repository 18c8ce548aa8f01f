/** The incremental reader of the search stream: lines, envelopes, attempts. */
module SearchStream {
  import opened Ids

  // ----- lines -----

  function DropCr(s: string): string
  {
    if s != "" && s[|s| - 1] == '\r' then s[..|s| - 1] else s
  }

  /** The complete lines of a text, each ended by a line feed with or without a carriage return, and
      the text after the last line feed. */
  function Split(text: string): (seq<string>, string)
  {
    if text == "" then ([], "")
    else
      var n := |text| - 1;
      var (lines, rest) := Split(text[..n]);
      if text[n] == '\n' then (lines + [DropCr(rest)], "") else (lines, rest + [text[n]])
  }

  /** A line and its terminator. */
  function Ended(line: string, cr: bool): string
  {
    line + if cr then "\r\n" else "\n"
  }

  function Rejoined(lines: seq<string>, crs: seq<bool>): string
    requires |crs| == |lines|
  {
    if lines == [] then ""
    else Rejoined(lines[..|lines| - 1], crs[..|lines| - 1]) + Ended(lines[|lines| - 1], crs[|lines| - 1])
  }

  predicate NoFeed(s: string)
  {
    forall i :: 0 <= i < |s| ==> s[i] != '\n'
  }

  /** A terminator takes the carriage return before its line feed, when there is one. */
  ghost predicate Terminated(lines: seq<string>, crs: seq<bool>)
  {
    && |crs| == |lines|
    && forall i :: 0 <= i < |lines| ==> NoFeed(lines[i]) && (!crs[i] ==> DropCr(lines[i]) == lines[i])
  }

  lemma SplitLast(text: string, c: char)
    ensures var (lines, rest) := Split(text);
      Split(text + [c]) == if c == '\n' then (lines + [DropCr(rest)], "") else (lines, rest + [c])
  {
    assert (text + [c])[..|text + [c]| - 1] == text;
  }

  /** Splitting loses nothing: the lines with their terminators, and the rest, are the text. */
  lemma {:induction false} SplitRejoins(text: string) returns (crs: seq<bool>)
    ensures Terminated(Split(text).0, crs) && NoFeed(Split(text).1)
    ensures text == Rejoined(Split(text).0, crs) + Split(text).1
  {
    if text == "" {
      crs := [];
    } else {
      var n := |text| - 1;
      var front, c := text[..n], text[n];
      assert text == front + [c];
      SplitLast(front, c);
      crs := SplitRejoins(front);
      hide Split;
      var (lines, rest) := Split(front);
      if c == '\n' {
        var cr := DropCr(rest) != rest;
        RejoinedMore(lines, crs, DropCr(rest), cr);
        assert rest + [c] == Ended(DropCr(rest), cr);
        crs := crs + [cr];
      }
    }
  }

  lemma RejoinedMore(lines: seq<string>, crs: seq<bool>, line: string, cr: bool)
    requires Terminated(lines, crs) && NoFeed(line) && (!cr ==> DropCr(line) == line)
    ensures Terminated(lines + [line], crs + [cr])
    ensures Rejoined(lines + [line], crs + [cr]) == Rejoined(lines, crs) + Ended(line, cr)
  {
    assert (lines + [line])[..|lines|] == lines && (crs + [cr])[..|lines|] == crs;
  }

  /** A line feed ends a line, and takes one carriage return before it. */
  lemma LineEnds(line: string)
    requires NoFeed(line)
    ensures Split(line + "\n") ==
      ([if line != "" && line[|line| - 1] == '\r' then line[..|line| - 1] else line], "")
    ensures Split(line + "\r\n") == ([line], "")
  {
    var cr: char, lf: char := '\r', '\n';
    NoFeedSplit(line);
    SplitLast(line, lf);
    SplitLast(line, cr);
    SplitLast(line + [cr], lf);
    assert line + "\n" == line + [lf] && line + "\r\n" == line + [cr] + [lf];
    hide Split;
    assert [] + [line] == [line] && [] + [DropCr(line)] == [DropCr(line)];
    assert DropCr(line + [cr]) == line;
  }

  /** Splitting a text in two steps: what the first step leaves over starts the second. */
  lemma {:induction false} SplitAppend(a: string, b: string)
    ensures var (lines, rest) := Split(a);
      Split(a + b) == (lines + Split(rest + b).0, Split(rest + b).1)
  {
    var (lines, rest) := Split(a);
    if b == "" {
      assert a + b == a && rest + b == rest;
      SplitRest(a);
      assert lines + Split(rest).0 == lines;
    } else {
      var n := |b| - 1;
      assert a + b == (a + b[..n]) + [b[n]] && rest + b == (rest + b[..n]) + [b[n]];
      SplitLast(a + b[..n], b[n]);
      SplitLast(rest + b[..n], b[n]);
      SplitAppend(a, b[..n]);
      hide Split;
      var (more, left) := Split(rest + b[..n]);
      assert lines + (more + [DropCr(left)]) == lines + more + [DropCr(left)];
    }
  }

  /** What is left over holds no complete line. */
  lemma SplitRest(a: string)
    ensures Split(Split(a).1) == ([], Split(a).1)
  {
    var crs := SplitRejoins(a);
    NoFeedSplit(Split(a).1);
  }

  lemma {:induction false} NoFeedSplit(s: string)
    requires NoFeed(s)
    ensures Split(s) == ([], s)
  {
    if s != "" {
      NoFeedSplit(s[..|s| - 1]);
      assert s == s[..|s| - 1] + [s[|s| - 1]];
    }
  }

  // ----- results -----

  datatype SearchResult = SearchResult(sourceKey: string, sourceTable: string, sourceMac: string, locationId: string,
                                       sensorId: string, observedAt: string, detailJson: string)

  function JoinPresent(parts: seq<string>): string
  {
    if parts == [] then ""
    else
      var front := JoinPresent(parts[..|parts| - 1]);
      var last := parts[|parts| - 1];
      if last == "" then front else if front == "" then last else front + "|" + last
  }

  function ResultIdentity(r: SearchResult): string
  {
    if r.sourceKey != "" then r.sourceKey
    else JoinPresent([r.sourceTable, r.sourceMac, r.locationId, r.sensorId, r.observedAt, r.detailJson])
  }

  /** `r` is the first received result with its identity. */
  ghost predicate IsFirst(received: seq<SearchResult>, i: nat)
    requires i < |received|
  {
    ResultIdentity(received[i]) != "" && forall j :: 0 <= j < i ==>
      ResultIdentity(received[j]) != ResultIdentity(received[i])
  }

  function Identities(rs: seq<SearchResult>): set<string>
  {
    set r | r in rs :: ResultIdentity(r)
  }

  /** Append a result with a new identity. */
  function Appended(results: seq<SearchResult>, r: SearchResult): seq<SearchResult>
  {
    if ResultIdentity(r) != "" && ResultIdentity(r) !in Identities(results) then results + [r] else results
  }

  function AppendedAll(results: seq<SearchResult>, received: seq<SearchResult>): seq<SearchResult>
  {
    if received == [] then results
    else Appended(AppendedAll(results, received[..|received| - 1]), received[|received| - 1])
  }

  /** `picks` are the positions of the first arrivals, in order. */
  ghost predicate FirstArrivals(received: seq<SearchResult>, picks: seq<nat>, results: seq<SearchResult>)
  {
    && |results| == |picks|
    && (forall j :: 0 <= j < |picks| ==>
         picks[j] < |received| && IsFirst(received, picks[j]) && results[j] == received[picks[j]])
    && (forall j, k :: 0 <= j < k < |picks| ==> picks[j] < picks[k])
    && (forall i: nat :: i < |received| && IsFirst(received, i) ==> i in picks)
  }

  /** The appended results are exactly the distinct non-empty identities received, each by its first
      arrival, in arrival order. */
  lemma {:induction false} AppendedAreFirst(received: seq<SearchResult>) returns (picks: seq<nat>)
    ensures FirstArrivals(received, picks, AppendedAll([], received))
    ensures Identities(AppendedAll([], received)) == Identities(received) - {""}
  {
    if received == [] {
      picks := [];
    } else {
      var n := |received| - 1;
      var front, last := received[..n], received[n];
      picks := AppendedAreFirst(front);
      assert received == front + [last];
      picks := PickLast(front, last, picks, AppendedAll([], front));
    }
  }

  lemma FirstInFront(front: seq<SearchResult>, last: SearchResult, i: nat)
    requires i < |front|
    ensures IsFirst(front + [last], i) <==> IsFirst(front, i)
  {
    var all := front + [last];
    assert forall j :: 0 <= j <= i ==> front[j] == all[j];
  }

  lemma PickLast(front: seq<SearchResult>, last: SearchResult, picks: seq<nat>, results: seq<SearchResult>)
    returns (more: seq<nat>)
    requires FirstArrivals(front, picks, results) && Identities(results) == Identities(front) - {""}
    ensures FirstArrivals(front + [last], more, Appended(results, last))
    ensures Identities(Appended(results, last)) == Identities(front + [last]) - {""}
  {
    hide FirstArrivals, IsFirst, Identities, ResultIdentity;
    IdentitiesMore(front, last);
    IdentitiesMore(results, last);
    IdentityNew(front, last);
    if ResultIdentity(last) != "" && ResultIdentity(last) !in Identities(results) {
      more := picks + [|front|];
      PickOne(front, last, picks, results);
    } else {
      more := picks;
      PickNone(front, last, picks, results);
    }
  }

  lemma PickOne(front: seq<SearchResult>, last: SearchResult, picks: seq<nat>, results: seq<SearchResult>)
    requires FirstArrivals(front, picks, results) && IsFirst(front + [last], |front|)
    ensures FirstArrivals(front + [last], picks + [|front|], results + [last])
  {
    var all, more := front + [last], picks + [|front|];
    forall j | 0 <= j < |more|
      ensures more[j] < |all| && IsFirst(all, more[j]) && (results + [last])[j] == all[more[j]]
    {
      if j < |picks| {
        FirstInFront(front, last, picks[j]);
      }
    }
    forall i: nat | i < |all| && IsFirst(all, i)
      ensures i in more
    {
      if i < |front| {
        FirstInFront(front, last, i);
        assert i in picks;
      } else {
        assert more[|picks|] == i;
      }
    }
    hide IsFirst;
  }

  lemma PickNone(front: seq<SearchResult>, last: SearchResult, picks: seq<nat>, results: seq<SearchResult>)
    requires FirstArrivals(front, picks, results) && !IsFirst(front + [last], |front|)
    ensures FirstArrivals(front + [last], picks, results)
  {
    var all := front + [last];
    forall j | 0 <= j < |picks|
      ensures picks[j] < |all| && IsFirst(all, picks[j]) && results[j] == all[picks[j]]
    {
      FirstInFront(front, last, picks[j]);
    }
    forall i: nat | i < |all| && IsFirst(all, i)
      ensures i in picks
    {
      if i < |front| {
        FirstInFront(front, last, i);
      }
    }
    hide IsFirst;
  }

  lemma IdentitiesMore(rs: seq<SearchResult>, r: SearchResult)
    ensures Identities(rs + [r]) == Identities(rs) + {ResultIdentity(r)}
  {
  }

  lemma IdentityNew(front: seq<SearchResult>, last: SearchResult)
    ensures IsFirst(front + [last], |front|) <==>
      ResultIdentity(last) != "" && ResultIdentity(last) !in Identities(front)
  {
    var all := front + [last];
    if ResultIdentity(last) in Identities(front) {
      var r :| r in front && ResultIdentity(r) == ResultIdentity(last);
      var j :| 0 <= j < |front| && front[j] == r;
      assert ResultIdentity(all[j]) == ResultIdentity(all[|front|]);
    } else {
      forall j | 0 <= j < |front|
        ensures ResultIdentity(all[j]) != ResultIdentity(last)
      {
        assert front[j] in front;
      }
    }
  }

  // ----- parsed lines -----

  /** What a line parses to: nothing of use, a bare result, or an envelope. */
  datatype Parsed =
    | Skip
    | Raw(result: SearchResult)
    | Envelope(tag: string, body: Option<SearchResult>, doneFlag: bool)

  /** The result a line carries. */
  function Carried(p: Parsed): seq<SearchResult>
  {
    match p
    case Skip => []
    case Raw(r) => [r]
    case Envelope(_, body, _) => if body.Some? then [body.value] else []
  }

  /** A line that ends the stream: an envelope that is done, but not one tagged as a result that carries one. */
  predicate Ends(p: Parsed)
  {
    p.Envelope? && !(p.tag == "result" && p.body.Some?) && (p.doneFlag || p.tag == "done")
  }

  datatype Applied = Applied(seen: set<string>, results: seq<SearchResult>, done: bool, envelopeProtocol: bool)

  predicate Consistent(seen: set<string>, results: seq<SearchResult>)
  {
    seen == Identities(results)
  }

  method Append(seen0: set<string>, results0: seq<SearchResult>, r: SearchResult)
    returns (seen: set<string>, results: seq<SearchResult>)
    requires Consistent(seen0, results0)
    ensures results == Appended(results0, r) && Consistent(seen, results)
  {
    seen, results := seen0, results0;
    var key := ResultIdentity(r);
    if key != "" && key !in seen {
      seen := seen + {key};
      results := results + [r];
    }
  }

  method ApplyParsed(p: Parsed, seen0: set<string>, results0: seq<SearchResult>)
    returns (seen: set<string>, results: seq<SearchResult>, done: bool, envelopeProtocol: bool)
    requires Consistent(seen0, results0)
    ensures Consistent(seen, results) && results == AppendedAll(results0, Carried(p))
    ensures done == Ends(p) && envelopeProtocol == p.Envelope?
    ensures results ==
      if p.Raw? then Appended(results0, p.result)
      else if p.Envelope? && p.body.Some? then Appended(results0, p.body.value)
      else results0
    ensures done <==> p.Envelope? && !(p.tag == "result" && p.body.Some?) && (p.doneFlag || p.tag == "done")
  {
    seen, results := seen0, results0;
    match p
    case Skip =>
      return seen, results, false, false;
    case Raw(r) =>
      seen, results := Append(seen, results, r);
      return seen, results, false, false;
    case Envelope(tag, body, doneFlag) =>
      if tag == "result" && body.Some? {
        seen, results := Append(seen, results, body.value);
        return seen, results, false, true;
      }
      if body.Some? {
        seen, results := Append(seen, results, body.value);
      }
      return seen, results, doneFlag || tag == "done", true;
  }

  // ----- one attempt -----

  /** The lines of an attempt up to and including the one that ends it. */
  function Effective(lines: seq<Parsed>): seq<Parsed>
  {
    if lines == [] then []
    else if Ends(lines[0]) then [lines[0]]
    else [lines[0]] + Effective(lines[1..])
  }

  predicate AnyEnds(lines: seq<Parsed>)
  {
    exists i :: 0 <= i < |lines| && Ends(lines[i])
  }

  predicate AnyEnvelope(lines: seq<Parsed>)
  {
    exists i :: 0 <= i < |lines| && lines[i].Envelope?
  }

  function Received(lines: seq<Parsed>): seq<SearchResult>
  {
    if lines == [] then [] else Received(lines[..|lines| - 1]) + Carried(lines[|lines| - 1])
  }

  function ParseAll(parse: string -> Parsed, lines: seq<string>): (r: seq<Parsed>)
    ensures |r| == |lines| && forall i :: 0 <= i < |lines| ==> r[i] == parse(lines[i])
  {
    seq(|lines|, i requires 0 <= i < |lines| => parse(lines[i]))
  }

  /** The lines of a whole text: its complete lines, then what follows the last line feed. */
  function TextLines(parse: string -> Parsed, text: string): seq<Parsed>
  {
    ParseAll(parse, Split(text).0 + [Split(text).1])
  }

  function Concat(chunks: seq<string>): string
  {
    if chunks == [] then "" else Concat(chunks[..|chunks| - 1]) + chunks[|chunks| - 1]
  }

  /** Lines that do not end the stream are all effective, and more follow them. */
  lemma {:induction false} EffectiveAppend(a: seq<Parsed>, b: seq<Parsed>)
    ensures Effective(a + b) == if AnyEnds(a) then Effective(a) else a + Effective(b)
  {
    if a == [] {
      assert a + b == b;
    } else {
      assert (a + b)[1..] == a[1..] + b;
      EffectiveAppend(a[1..], b);
      if Ends(a[0]) {
        assert AnyEnds(a);
      } else {
        AnyEndsTail(a);
      }
    }
  }

  /** The effective lines are the first ones, none before the last of them ends the stream, and when
      lines are left out the last one does. */
  lemma {:induction false} EffectiveIsPrefix(lines: seq<Parsed>)
    ensures var some := Effective(lines);
      && some <= lines && (forall i :: 0 <= i < |some| - 1 ==> !Ends(some[i]))
      && (some != lines ==> some != [] && Ends(some[|some| - 1]))
  {
    if lines != [] && !Ends(lines[0]) {
      EffectiveIsPrefix(lines[1..]);
    }
  }

  lemma AnyEndsTail(a: seq<Parsed>)
    requires a != [] && !Ends(a[0])
    ensures AnyEnds(a) <==> AnyEnds(a[1..])
  {
    if AnyEnds(a) {
      var i :| 0 <= i < |a| && Ends(a[i]);
      assert Ends(a[1..][i - 1]);
    }
    if AnyEnds(a[1..]) {
      var i :| 0 <= i < |a[1..]| && Ends(a[1..][i]);
      assert Ends(a[i + 1]);
    }
  }

  /** What has been applied: the lines `applied`, none of which ends the stream unless `done`. */
  ghost predicate HasApplied(applied: seq<Parsed>, results0: seq<SearchResult>, seen: set<string>,
                             results: seq<SearchResult>,
                             done: bool, envelopeProtocol: bool)
  {
    && Consistent(seen, results)
    && results == AppendedAll(results0, Received(applied))
    && done == AnyEnds(applied)
    && envelopeProtocol == AnyEnvelope(applied)
  }

  lemma AnyMore(applied: seq<Parsed>, p: Parsed)
    ensures AnyEnds(applied + [p]) <==> AnyEnds(applied) || Ends(p)
    ensures AnyEnvelope(applied + [p]) <==> AnyEnvelope(applied) || p.Envelope?
    ensures Received(applied + [p]) == Received(applied) + Carried(p)
  {
    var next := applied + [p];
    assert next[..|applied|] == applied && next[|applied|] == p;
    assert forall i :: 0 <= i < |applied| ==> next[i] == applied[i];
    if AnyEnds(applied) {
      var i :| 0 <= i < |applied| && Ends(applied[i]);
      assert Ends(next[i]);
    }
    if AnyEnvelope(applied) {
      var i :| 0 <= i < |applied| && applied[i].Envelope?;
      assert next[i].Envelope?;
    }
  }

  lemma ApplyOneMore(applied: seq<Parsed>, results0: seq<SearchResult>, results: seq<SearchResult>, p: Parsed,
                     seen: set<string>,
                     env: bool, more: seq<SearchResult>, moreSeen: set<string>)
    requires HasApplied(applied, results0, seen, results, false, env)
    requires more == AppendedAll(results, Carried(p)) && Consistent(moreSeen, more)
    ensures HasApplied(applied + [p], results0, moreSeen, more, Ends(p), env || p.Envelope?)
  {
    hide AnyEnds, AnyEnvelope, Received, Carried, Ends, AppendedAll, Consistent;
    AnyMore(applied, p);
    AppendedAppend(results0, Received(applied), Carried(p));
  }

  lemma {:induction false} AppendedAppend(results: seq<SearchResult>, a: seq<SearchResult>, b: seq<SearchResult>)
    ensures AppendedAll(results, a + b) == AppendedAll(AppendedAll(results, a), b)
  {
    if b == [] {
      assert a + b == a;
    } else {
      assert (a + b)[..|a + b| - 1] == a + b[..|b| - 1];
      AppendedAppend(results, a, b[..|b| - 1]);
    }
  }

  /** The outcome of one attempt over a text. */
  ghost predicate AttemptOf(parse: string -> Parsed, text: string, results0: seq<SearchResult>, seen: set<string>,
                            results: seq<SearchResult>, done: bool, envelopeProtocol: bool)
  {
    HasApplied(Effective(TextLines(parse, text)), results0, seen, results, done, envelopeProtocol)
  }

  lemma ConsistentOf(applied: seq<Parsed>, results0: seq<SearchResult>, seen: set<string>, results: seq<SearchResult>,
                     env: bool)
    requires HasApplied(applied, results0, seen, results, false, env)
    ensures Consistent(seen, results)
  {
  }

  lemma NeverEnds(all: seq<Parsed>)
    requires !AnyEnds(all)
    ensures Effective(all) == all
  {
    EffectiveAppend(all, []);
    assert all + [] == all;
  }

  lemma StopsHere(applied: seq<Parsed>, p: Parsed, all: seq<Parsed>)
    requires !AnyEnds(applied) && Ends(p) && applied + [p] <= all
    ensures Effective(all) == applied + [p] && AnyEnds(all)
  {
    var rest := all[|applied|..];
    assert rest[0] == p && all == applied + rest;
    EffectiveAppend(applied, rest);
    assert Ends(all[|applied|]);
  }

  lemma NotEnded(applied: seq<Parsed>, results0: seq<SearchResult>, seen: set<string>, results: seq<SearchResult>,
                 done: bool, env: bool)
    requires HasApplied(applied, results0, seen, results, done, env)
    ensures done == AnyEnds(applied)
  {
  }

  /** Apply lines one by one until one ends the stream. */
  method ApplyLines(parse: string -> Parsed, lines: seq<string>, ghost before: seq<Parsed>,
                    ghost results0: seq<SearchResult>,
                    seen0: set<string>, results1: seq<SearchResult>, env0: bool)
    returns (seen: set<string>, results: seq<SearchResult>, completed: bool, env: bool)
    requires HasApplied(before, results0, seen0, results1, false, env0)
    ensures HasApplied(Effective(before + ParseAll(parse, lines)), results0, seen, results, completed, env)
    ensures completed == AnyEnds(before + ParseAll(parse, lines))
  {
    seen, results, completed, env := seen0, results1, false, env0;
    ghost var tail := ParseAll(parse, lines);
    ghost var applied := before;
    for i := 0 to |lines|
      invariant applied == before + tail[..i] && HasApplied(applied, results0, seen, results, false, env)
    {
      hide HasApplied, AnyEnds, ParseAll, Effective, Consistent, AppendedAll, Carried, Ends;
      var parsed := parse(lines[i]);
      ConsistentOf(applied, results0, seen, results, env);
      NotEnded(applied, results0, seen, results, false, env);
      ghost var wasSeen, wasResults, wasEnv := seen, results, env;
      var isEnvelope;
      seen, results, completed, isEnvelope := ApplyParsed(parsed, seen, results);
      ApplyOneMore(applied, results0, wasResults, parsed, wasSeen, wasEnv, results, seen);
      env := env || isEnvelope;
      TailStep(before, tail, i);
      if completed {
        StopsHere(applied, parsed, before + tail);
        return;
      }
      applied := applied + [parsed];
    }
    assert tail[..|lines|] == tail;
    hide HasApplied;
    NotEnded(applied, results0, seen, results, false, env);
    NeverEnds(applied);
  }

  lemma TailStep(before: seq<Parsed>, tail: seq<Parsed>, i: nat)
    requires i < |tail|
    ensures before + tail[..i] + [tail[i]] == before + tail[..i + 1]
    ensures before + tail[..i] + [tail[i]] <= before + tail
  {
  }

  lemma ParseAppend(parse: string -> Parsed, a: seq<string>, b: seq<string>)
    ensures ParseAll(parse, a + b) == ParseAll(parse, a) + ParseAll(parse, b)
  {
  }

  /** The complete lines of a text come first among the lines of any longer text. */
  lemma LinesOfMore(parse: string -> Parsed, text: string, more: string)
    ensures ParseAll(parse, Split(text).0) <= TextLines(parse, text + more)
    ensures ParseAll(parse, Split(text + more).0) ==
      ParseAll(parse, Split(text).0) + ParseAll(parse, Split(Split(text).1 + more).0)
  {
    SplitAppend(text, more);
    hide Split, ParseAll;
    var lines, rest := Split(text).0, Split(text).1;
    ParseAppend(parse, lines, Split(rest + more).0);
    ParseAppend(parse, lines + Split(rest + more).0, [Split(rest + more).1]);
  }

  lemma LastLine(parse: string -> Parsed, text: string)
    ensures TextLines(parse, text) == ParseAll(parse, Split(text).0) + [parse(Split(text).1)]
  {
    hide Split;
    ParseAppend(parse, Split(text).0, [Split(text).1]);
    assert ParseAll(parse, [Split(text).1]) == [parse(Split(text).1)];
  }

  lemma EndedEarly(parse: string -> Parsed, text: string, more: string)
    requires AnyEnds(ParseAll(parse, Split(text).0))
    ensures Effective(TextLines(parse, text + more)) == Effective(ParseAll(parse, Split(text).0))
  {
    LinesOfMore(parse, text, more);
    var a, all := ParseAll(parse, Split(text).0), TextLines(parse, text + more);
    hide Split, ParseAll, TextLines, Effective, AnyEnds;
    assert all == a + all[|a|..];
    EffectiveAppend(a, all[|a|..]);
  }

  lemma ConcatNext(chunks: seq<string>, i: nat)
    requires i < |chunks|
    ensures Concat(chunks[..i + 1]) == Concat(chunks[..i]) + chunks[i]
  {
    assert chunks[..i + 1][..i] == chunks[..i];
  }

  /** The text that follows the first `i` chunks. */
  lemma {:induction false} ConcatRest(chunks: seq<string>, i: nat) returns (more: string)
    requires i <= |chunks|
    ensures Concat(chunks) == Concat(chunks[..i]) + more
  {
    if i == |chunks| {
      more := "";
      assert chunks[..i] == chunks;
    } else {
      var n := |chunks| - 1;
      more := ConcatRest(chunks[..n], i);
      assert chunks[..n][..i] == chunks[..i];
      assert Concat(chunks) == Concat(chunks[..i]) + (more + chunks[n]);
      more := more + chunks[n];
    }
  }

  lemma NothingApplied(seen: set<string>, results: seq<SearchResult>, parse: string -> Parsed)
    requires Consistent(seen, results)
    ensures HasApplied([], results, seen, results, false, false)
    ensures Split("") == ([], "") && ParseAll(parse, []) == [] && Concat([]) == ""
  {
  }

  /** One attempt: whatever the chunks, it applies the lines of the concatenated text, up to the
      first that ends the stream. */
  method StreamOnce(parse: string -> Parsed, chunks: seq<string>, seen0: set<string>, results0: seq<SearchResult>)
    returns (seen: set<string>, results: seq<SearchResult>, completed: bool, envelopeProtocol: bool)
    requires Consistent(seen0, results0)
    ensures AttemptOf(parse, Concat(chunks), results0, seen, results, AnyEnds(TextLines(parse, Concat(chunks))),
      envelopeProtocol)
    ensures completed == (AnyEnds(TextLines(parse, Concat(chunks))) || !envelopeProtocol)
    ensures Consistent(seen, results)
  {
    hide HasApplied, AnyEnds, Split, Effective, TextLines, Concat, Consistent, ParseAll;
    seen, results, envelopeProtocol := seen0, results0, false;
    var buffer, done := "", false;
    NothingApplied(seen, results, parse);
    ghost var text := "";
    for i := 0 to |chunks|
      invariant text == Concat(chunks[..i]) && buffer == Split(text).1
      invariant HasApplied(ParseAll(parse, Split(text).0), results0, seen, results, false, envelopeProtocol)
    {
      ghost var before := text;
      text := text + chunks[i];
      ConcatNext(chunks, i);
      LinesOfMore(parse, before, chunks[i]);
      SplitAppend(before, chunks[i]);
      var (lines, rest) := Split(buffer + chunks[i]);
      buffer := rest;
      seen, results, done, envelopeProtocol :=
        ApplyLines(parse, lines, ParseAll(parse, Split(before).0), results0, seen, results, envelopeProtocol);
      if done {
        ghost var more := ConcatRest(chunks, i + 1);
        EndsInText(parse, text, more);
        ConsistentApplied(Effective(ParseAll(parse, Split(text).0)), results0, seen, results, done, envelopeProtocol);
        return seen, results, true, envelopeProtocol;
      }
      NeverEnds(ParseAll(parse, Split(text).0));
    }
    assert chunks[..|chunks|] == chunks;
    LastLine(parse, text);
    seen, results, done, envelopeProtocol :=
      ApplyLast(parse, buffer, ParseAll(parse, Split(text).0), results0, seen, results, envelopeProtocol);
    ConsistentApplied(Effective(TextLines(parse, text)), results0, seen, results, done, envelopeProtocol);
    completed := done || !envelopeProtocol;
  }

  lemma ConsistentApplied(applied: seq<Parsed>, results0: seq<SearchResult>, seen: set<string>,
                          results: seq<SearchResult>,
                          done: bool, env: bool)
    requires HasApplied(applied, results0, seen, results, done, env)
    ensures Consistent(seen, results)
  {
  }

  lemma EndsInText(parse: string -> Parsed, text: string, more: string)
    requires AnyEnds(ParseAll(parse, Split(text).0))
    ensures Effective(TextLines(parse, text + more)) == Effective(ParseAll(parse, Split(text).0))
    ensures AnyEnds(TextLines(parse, text + more))
  {
    EndedEarly(parse, text, more);
    LinesOfMore(parse, text, more);
    var a, all := ParseAll(parse, Split(text).0), TextLines(parse, text + more);
    var i :| 0 <= i < |a| && Ends(a[i]);
    assert Ends(all[i]);
  }

  /** The text after the last line feed is one more line. */
  method ApplyLast(parse: string -> Parsed, buffer: string, ghost before: seq<Parsed>,
                   ghost results0: seq<SearchResult>,
                   seen0: set<string>, results1: seq<SearchResult>, env0: bool)
    returns (seen: set<string>, results: seq<SearchResult>, done: bool, env: bool)
    requires HasApplied(before, results0, seen0, results1, false, env0)
    ensures HasApplied(Effective(before + [parse(buffer)]), results0, seen, results, done, env)
    ensures done == AnyEnds(before + [parse(buffer)])
  {
    assert ParseAll(parse, [buffer]) == [parse(buffer)];
    seen, results, done, env := ApplyLines(parse, [buffer], before, results0, seen0, results1, env0);
  }

  // ----- attempts -----

  const MAX_ATTEMPTS := 3

  /** An attempt completes when a line ends the stream, or when no envelope was seen. */
  ghost predicate Completes(parse: string -> Parsed, text: string)
  {
    AnyEnds(TextLines(parse, text)) || !AnyEnvelope(Effective(TextLines(parse, text)))
  }

  /** The results received in the first `n` attempts, in order. */
  ghost function ReceivedIn(parse: string -> Parsed, responses: seq<seq<string>>, n: nat): seq<SearchResult>
    requires n <= |responses|
  {
    if n == 0 then []
    else ReceivedIn(parse, responses, n - 1) + Received(Effective(TextLines(parse, Concat(responses[n - 1]))))
  }

  /** What `n` attempts come to: only the last may complete, and all results received are kept once. */
  ghost predicate StreamOf(parse: string -> Parsed, responses: seq<seq<string>>, n: nat, results: seq<SearchResult>,
                           completed: bool)
    requires n <= |responses|
  {
    && 1 <= n <= 3
    && (forall k :: 0 <= k < n - 1 ==> !Completes(parse, Concat(responses[k])))
    && completed == Completes(parse, Concat(responses[n - 1]))
    && (completed || n == 3)
    && results == AppendedAll([], ReceivedIn(parse, responses, n))
  }

  /** What the attempts made so far have come to. */
  ghost predicate Attempting(parse: string -> Parsed, responses: seq<seq<string>>, n: nat, results: seq<SearchResult>,
                             completed: bool)
    requires n <= |responses|
  {
    && results == AppendedAll([], ReceivedIn(parse, responses, n))
    && (forall k :: 0 <= k < n - 1 ==> !Completes(parse, Concat(responses[k])))
    && (if n == 0 then !completed else completed == Completes(parse, Concat(responses[n - 1])))
  }

  lemma MoreReceived(received: seq<SearchResult>, lines: seq<Parsed>, before: seq<SearchResult>,
                     seen: set<string>, results: seq<SearchResult>, done: bool, env: bool)
    requires before == AppendedAll([], received) && HasApplied(lines, before, seen, results, done, env)
    ensures results == AppendedAll([], received + Received(lines))
  {
    AppendedAppend([], received, Received(lines));
  }

  lemma NoAttempt(parse: string -> Parsed, responses: seq<seq<string>>)
    ensures Attempting(parse, responses, 0, [], false) && Consistent({}, [])
  {
  }

  lemma Attempted(parse: string -> Parsed, responses: seq<seq<string>>, n: nat, results: seq<SearchResult>,
                  completed: bool)
    requires 1 <= n <= MAX_ATTEMPTS && n <= |responses| && Attempting(parse, responses, n, results, completed)
    requires completed || n == MAX_ATTEMPTS
    ensures StreamOf(parse, responses, n, results, completed)
  {
    hide AppendedAll, ReceivedIn, Completes;
  }

  /** Up to three attempts share the seen identities.  `responses[k]` is what attempt `k` receives. */
  method Stream(parse: string -> Parsed, responses: seq<seq<string>>)
    returns (results: seq<SearchResult>, completed: bool, attempts: nat)
    requires |responses| == MAX_ATTEMPTS
    ensures attempts <= |responses| && StreamOf(parse, responses, attempts, results, completed)
  {
    hide AppendedAll, Received, Effective, TextLines, Concat, AnyEnds, AnyEnvelope, Consistent;
    var seen: set<string> := {};
    results, completed, attempts := [], false, 0;
    NoAttempt(parse, responses);
    while attempts < MAX_ATTEMPTS && !completed
      invariant attempts <= MAX_ATTEMPTS && (completed ==> attempts > 0)
      invariant Consistent(seen, results) && Attempting(parse, responses, attempts, results, completed)
      decreases MAX_ATTEMPTS - attempts
    {
      ghost var before := results;
      var envelopeProtocol;
      seen, results, completed, envelopeProtocol := StreamOnce(parse, responses[attempts], seen, results);
      MoreReceived(ReceivedIn(parse, responses, attempts), Effective(TextLines(parse, Concat(responses[attempts]))),
        before,
                   seen, results, AnyEnds(TextLines(parse, Concat(responses[attempts]))), envelopeProtocol);
      attempts := attempts + 1;
      if !completed && envelopeProtocol && attempts < MAX_ATTEMPTS {
        continue;
      }
      break;
    }
    Attempted(parse, responses, attempts, results, completed);
  }

  /** How the bytes are cut into chunks does not matter. */
  lemma ChunkingIrrelevant(parse: string -> Parsed, a: seq<seq<string>>, b: seq<seq<string>>, n: nat, m: nat,
                           ra: seq<SearchResult>, ca: bool, rb: seq<SearchResult>, cb: bool)
    requires |a| == |b| == MAX_ATTEMPTS && n <= |a| && m <= |b|
    requires forall k :: 0 <= k < MAX_ATTEMPTS ==> Concat(a[k]) == Concat(b[k])
    requires StreamOf(parse, a, n, ra, ca) && StreamOf(parse, b, m, rb, cb)
    ensures n == m && ra == rb && ca == cb
  {
    hide Completes, Concat, AppendedAll, Received, TextLines, Effective;
    SameReceived(parse, a, b, n);
  }

  lemma {:induction false} SameReceived(parse: string -> Parsed, a: seq<seq<string>>, b: seq<seq<string>>, n: nat)
    requires n <= |a| && n <= |b| && forall k :: 0 <= k < n ==> Concat(a[k]) == Concat(b[k])
    ensures ReceivedIn(parse, a, n) == ReceivedIn(parse, b, n)
  {
    hide TextLines, Effective, Received, Concat;
    if n > 0 {
      SameReceived(parse, a, b, n - 1);
    }
  }
}
