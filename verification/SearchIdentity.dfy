/** When the search stream takes two results for the same, and what it shows. */
module SearchIdentity {
  import opened SearchStream

  // ----- identities -----

  /** Results with source keys are the same exactly when the keys are. */
  lemma KeyedIdentity(r: SearchResult, s: SearchResult)
    requires r.sourceKey != "" && s.sourceKey != ""
    ensures ResultIdentity(r) != ""
    ensures ResultIdentity(r) == ResultIdentity(s) <==> r.sourceKey == s.sourceKey
  {
  }

  /** The non-empty texts, in order. */
  function Present(parts: seq<string>): seq<string>
  {
    if parts == [] then []
    else
      var last := parts[|parts| - 1];
      Present(parts[..|parts| - 1]) + if last == "" then [] else [last]
  }

  lemma {:induction false} PresentMembers(parts: seq<string>)
    ensures forall p :: p in Present(parts) <==> p in parts && p != ""
  {
    if parts != [] {
      var front, last := parts[..|parts| - 1], parts[|parts| - 1];
      PresentMembers(front);
      assert parts == front + [last];
    }
  }

  function JoinBars(parts: seq<string>): string
  {
    if parts == [] then ""
    else if |parts| == 1 then parts[0]
    else JoinBars(parts[..|parts| - 1]) + "|" + parts[|parts| - 1]
  }

  ghost predicate Filled(parts: seq<string>)
  {
    forall p :: p in parts ==> p != ""
  }

  lemma JoinBarsEmpty(parts: seq<string>)
    requires Filled(parts)
    ensures JoinBars(parts) == "" <==> parts == []
  {
    if |parts| == 1 {
      assert parts[0] in parts;
    }
  }

  lemma JoinBarsMore(parts: seq<string>, last: string)
    ensures JoinBars(parts + [last]) == if parts == [] then last else JoinBars(parts) + "|" + last
  {
    assert (parts + [last])[..|parts|] == parts;
  }

  /** Joining skips the empty texts. */
  lemma {:induction false} JoinSkipsEmpty(parts: seq<string>)
    ensures JoinPresent(parts) == JoinBars(Present(parts)) && Filled(Present(parts))
  {
    PresentMembers(parts);
    if parts != [] {
      var front, last := parts[..|parts| - 1], parts[|parts| - 1];
      var some := Present(front);
      JoinSkipsEmpty(front);
      JoinBarsEmpty(some);
      JoinBarsMore(some, last);
      assert some + [] == some;
      hide JoinBars, Filled;
    }
  }

  predicate NoBar(s: string)
  {
    forall i :: 0 <= i < |s| ==> s[i] != '|'
  }

  lemma LastBarSplit(a: string, b: string, c: string, d: string)
    requires a + "|" + b == c + "|" + d && NoBar(b) && NoBar(d)
    ensures a == c && b == d
  {
    var s := a + "|" + b;
    assert s[|a|] == '|' && s[|c|] == '|';
    assert forall i :: |a| < i < |s| ==> s[i] == b[i - |a| - 1];
    assert forall i :: |c| < i < |s| ==> s[i] == d[i - |c| - 1];
    assert a == s[..|a|] && b == s[|a| + 1..];
  }

  ghost predicate Barless(parts: seq<string>)
  {
    Filled(parts) && forall p :: p in parts ==> NoBar(p)
  }

  lemma TwoHaveBar(parts: seq<string>)
    requires |parts| > 1
    ensures !NoBar(JoinBars(parts))
  {
    var front := JoinBars(parts[..|parts| - 1]);
    assert JoinBars(parts)[|front|] == '|';
  }

  lemma {:induction false} JoinBarsInjective(a: seq<string>, b: seq<string>)
    requires Barless(a) && Barless(b) && JoinBars(a) == JoinBars(b)
    ensures a == b
  {
    JoinBarsEmpty(a);
    JoinBarsEmpty(b);
    if |a| > 1 {
      TwoHaveBar(a);
    }
    if |b| > 1 {
      TwoHaveBar(b);
    }
    assert |a| == 1 ==> a[0] in a;
    assert |b| == 1 ==> b[0] in b;
    if |a| > 1 && |b| > 1 {
      var m, n := |a| - 1, |b| - 1;
      assert a[m] in a && b[n] in b && (forall p :: p in a[..m] ==> p in a) && (forall p :: p in b[..n] ==> p in b);
      LastBarSplit(JoinBars(a[..m]), a[m], JoinBars(b[..n]), b[n]);
      JoinBarsInjective(a[..m], b[..n]);
      assert a == a[..m] + [a[m]] && b == b[..n] + [b[n]];
    }
  }

  lemma JoinInjective(a: seq<string>, b: seq<string>)
    requires forall p :: p in a || p in b ==> NoBar(p)
    ensures JoinPresent(a) == JoinPresent(b) <==> Present(a) == Present(b)
  {
    JoinSkipsEmpty(a);
    JoinSkipsEmpty(b);
    PresentMembers(a);
    PresentMembers(b);
    hide JoinPresent, JoinBars, Present;
    if JoinPresent(a) == JoinPresent(b) {
      JoinBarsInjective(Present(a), Present(b));
    }
  }

  /** A result without a key has no identity exactly when it names nothing. */
  lemma KeylessIdentityEmpty(r: SearchResult)
    requires r.sourceKey == ""
    ensures ResultIdentity(r) == "" <==>
      r.sourceTable == "" && r.sourceMac == "" && r.locationId == "" && r.sensorId == "" && r.observedAt == ""
      && r.detailJson == ""
  {
    var parts := [r.sourceTable, r.sourceMac, r.locationId, r.sensorId, r.observedAt, r.detailJson];
    JoinSkipsEmpty(parts);
    JoinBarsEmpty(Present(parts));
    PresentMembers(parts);
    hide JoinPresent, JoinBars, Present;
    assert parts[0] in parts && parts[1] in parts && parts[2] in parts && parts[3] in parts && parts[4] in parts
      && parts[5] in parts;
    if Present(parts) != [] {
      assert Present(parts)[0] in Present(parts);
    }
  }

  /** Results without keys, and without bars in their fields, are the same exactly when they name
      the same things in the same order. */
  lemma KeylessIdentity(r: SearchResult, s: SearchResult)
    requires r.sourceKey == "" && s.sourceKey == ""
    requires NoBar(r.sourceTable) && NoBar(r.sourceMac) && NoBar(r.locationId)
    requires NoBar(r.sensorId) && NoBar(r.observedAt) && NoBar(r.detailJson)
    requires NoBar(s.sourceTable) && NoBar(s.sourceMac) && NoBar(s.locationId)
    requires NoBar(s.sensorId) && NoBar(s.observedAt) && NoBar(s.detailJson)
    ensures ResultIdentity(r) == ResultIdentity(s) <==>
      Present([r.sourceTable, r.sourceMac, r.locationId, r.sensorId, r.observedAt, r.detailJson])
      == Present([s.sourceTable, s.sourceMac, s.locationId, s.sensorId, s.observedAt, s.detailJson])
  {
    hide NoBar, JoinPresent, Present;
    JoinInjective([r.sourceTable, r.sourceMac, r.locationId, r.sensorId, r.observedAt, r.detailJson],
                  [s.sourceTable, s.sourceMac, s.locationId, s.sensorId, s.observedAt, s.detailJson]);
  }

  // ----- what is shown -----

  ghost predicate AllKeyed(rs: seq<SearchResult>)
  {
    forall r :: r in rs ==> r.sourceKey != ""
  }

  ghost predicate HasSourceKey(rs: seq<SearchResult>, key: string)
  {
    exists i :: 0 <= i < |rs| && rs[i].sourceKey == key
  }

  /** `rs[i]` is the first result with its source key. */
  ghost predicate FirstWithSourceKey(rs: seq<SearchResult>, i: nat)
    requires i < |rs|
  {
    forall j :: 0 <= j < i ==> rs[j].sourceKey != rs[i].sourceKey
  }

  /** Every source key received is shown exactly once, by its first result, in order of arrival. */
  ghost predicate ShowsKeysOnce(received: seq<SearchResult>, shown: seq<SearchResult>)
  {
    && (forall i, j :: 0 <= i < j < |shown| ==> shown[i].sourceKey != shown[j].sourceKey)
    && (forall key :: HasSourceKey(shown, key) <==> HasSourceKey(received, key))
    && exists picks: seq<nat> :: PicksFirst(received, picks, shown)
  }

  ghost predicate PicksFirst(received: seq<SearchResult>, picks: seq<nat>, shown: seq<SearchResult>)
  {
    && |picks| == |shown|
    && (forall j :: 0 <= j < |picks| ==>
          picks[j] < |received| && shown[j] == received[picks[j]] && FirstWithSourceKey(received, picks[j]))
    && forall j, k :: 0 <= j < k < |picks| ==> picks[j] < picks[k]
  }

  lemma FirstByKey(received: seq<SearchResult>, i: nat)
    requires AllKeyed(received) && i < |received|
    ensures IsFirst(received, i) <==> FirstWithSourceKey(received, i)
  {
    forall j | 0 <= j <= i
      ensures ResultIdentity(received[j]) == ResultIdentity(received[i]) <==>
        received[j].sourceKey == received[i].sourceKey
      ensures ResultIdentity(received[i]) != ""
    {
      assert received[j] in received && received[i] in received;
      KeyedIdentity(received[j], received[i]);
    }
    hide ResultIdentity;
  }

  lemma {:induction false} EarliestWithKey(received: seq<SearchResult>, i: nat) returns (first: nat)
    requires i < |received|
    ensures first <= i && received[first].sourceKey == received[i].sourceKey && FirstWithSourceKey(received, first)
  {
    first := i;
    if !FirstWithSourceKey(received, i) {
      var j :| 0 <= j < i && received[j].sourceKey == received[i].sourceKey;
      first := EarliestWithKey(received, j);
    }
  }

  lemma KeysShownOnce(received: seq<SearchResult>)
    requires AllKeyed(received)
    ensures ShowsKeysOnce(received, AppendedAll([], received))
  {
    var shown := AppendedAll([], received);
    var picks := AppendedAreFirst(received);
    forall i: nat | i < |received|
      ensures IsFirst(received, i) <==> FirstWithSourceKey(received, i)
    {
      FirstByKey(received, i);
    }
    hide IsFirst, AppendedAll, Identities, ResultIdentity, FirstWithSourceKey;
    assert PicksFirst(received, picks, shown);
    FirstsShowKeys(received, picks, shown);
  }

  lemma FirstsShowKeys(received: seq<SearchResult>, picks: seq<nat>, shown: seq<SearchResult>)
    requires PicksFirst(received, picks, shown)
    requires forall i: nat :: i < |received| && FirstWithSourceKey(received, i) ==> i in picks
    ensures ShowsKeysOnce(received, shown)
  {
    forall i, j | 0 <= i < j < |shown|
      ensures shown[i].sourceKey != shown[j].sourceKey
    {
      assert FirstWithSourceKey(received, picks[j]) && picks[i] < picks[j];
    }
    forall key
      ensures HasSourceKey(shown, key) <==> HasSourceKey(received, key)
    {
      if HasSourceKey(received, key) {
        var i :| 0 <= i < |received| && received[i].sourceKey == key;
        var first := EarliestWithKey(received, i);
        assert first in picks;
        var k :| 0 <= k < |picks| && picks[k] == first;
        assert shown[k].sourceKey == key;
      }
      if HasSourceKey(shown, key) {
        var k :| 0 <= k < |shown| && shown[k].sourceKey == key;
        assert received[picks[k]].sourceKey == key;
      }
    }
  }

  /** A whole stream of results with source keys, over all its attempts. */
  lemma StreamShowsKeysOnce(parse: string -> Parsed, responses: seq<seq<string>>, n: nat, results: seq<SearchResult>,
                            completed: bool)
    requires n <= |responses| && StreamOf(parse, responses, n, results, completed)
    requires AllKeyed(ReceivedIn(parse, responses, n))
    ensures ShowsKeysOnce(ReceivedIn(parse, responses, n), results)
  {
    KeysShownOnce(ReceivedIn(parse, responses, n));
  }
}
