/** Which channels an alert goes to (`matching`, `union`, `route` and `follow_up`
    in `hub/src/model.rs`). */
module Routing {
  import opened Wrappers

  datatype AlertKind = Down | Warning | Recovered | ProbeExpired

  /** What an alert is about; `checkKind` is missing when it is about a probe. */
  datatype Alert = Alert(kind: AlertKind, company: string, site: string, checkKind: Option<string>)

  datatype Rule = Rule(companies: seq<string>, sites: seq<string>, kinds: seq<AlertKind>, checkKinds: seq<string>,
                       channels: seq<int>, stop: bool,
                       remindEvery: Option<nat>, escalateAfter: Option<nat>, escalateTo: seq<int>)

  /** `RouteRule::matches`. */
  predicate Matches(rule: Rule, alert: Alert) {
    && (rule.companies == [] || alert.company in rule.companies)
    && (rule.sites == [] || alert.company + "/" + alert.site in rule.sites)
    && (rule.kinds == [] || alert.kind in rule.kinds)
    && (rule.checkKinds == [] || (alert.checkKind.Some? && alert.checkKind.value in rule.checkKinds))
  }

  // ----- The rules that count ------------------------------------------------

  predicate Stops(rule: Rule, alert: Alert) {
    Matches(rule, alert) && rule.stop
  }

  /** The first `n` rules are those up to the first that matches and stops. */
  ghost predicate IsReach(rules: seq<Rule>, alert: Alert, n: nat) {
    && n <= |rules|
    && (forall i :: 0 <= i < n - 1 ==> !Stops(rules[i], alert))
    && (n < |rules| ==> n > 0 && Stops(rules[n - 1], alert))
  }

  /** The matching ones of some rules. */
  function Matched(rules: seq<Rule>, alert: Alert): (r: seq<Rule>)
    ensures forall rule :: rule in r <==> rule in rules && Matches(rule, alert)
  {
    if rules == [] then []
    else
      var n := |rules| - 1;
      assert rules == rules[..n] + [rules[n]];
      Matched(rules[..n], alert) + if Matches(rules[n], alert) then [rules[n]] else []
  }

  /** How many rules are looked at. */
  function Reach(rules: seq<Rule>, alert: Alert): (n: nat)
    ensures n <= |rules|
  {
    if rules == [] then 0
    else if Stops(rules[0], alert) then 1
    else 1 + Reach(rules[1..], alert)
  }

  lemma {:induction false} ReachIs(rules: seq<Rule>, alert: Alert)
    ensures IsReach(rules, alert, Reach(rules, alert))
  {
    hide Matches;
    if rules != [] && !Stops(rules[0], alert) {
      ReachIs(rules[1..], alert);
      var n := Reach(rules[1..], alert);
      if |rules| > 1 {
        assert forall i :: 0 < i < n ==> rules[i] == rules[1..][i - 1];
        assert n < |rules[1..]| ==> rules[n] == rules[1..][n - 1];
      }
    }
  }

  lemma ReachIsOne(rules: seq<Rule>, alert: Alert, n: nat)
    requires IsReach(rules, alert, n)
    ensures n == Reach(rules, alert)
  {
    hide Stops;
    var m := Reach(rules, alert);
    ReachIs(rules, alert);
  }

  function Matching(rules: seq<Rule>, alert: Alert): seq<Rule> {
    Matched(rules[..Reach(rules, alert)], alert)
  }

  /** `matching`. */
  method FindMatching(rules: seq<Rule>, alert: Alert) returns (matched: seq<Rule>)
    ensures matched == Matching(rules, alert)
  {
    hide Matches, Matched, Reach;
    matched := [];
    MatchedNone(alert);
    for i := 0 to |rules|
      invariant matched == Matched(rules[..i], alert)
      invariant forall k :: 0 <= k < i ==> !Stops(rules[k], alert)
    {
      MatchedNext(rules, alert, i);
      if !Matches(rules[i], alert) {
        continue;
      }
      matched := matched + [rules[i]];
      if rules[i].stop {
        ReachIsOne(rules, alert, i + 1);
        return;
      }
    }
    ReachIsOne(rules, alert, |rules|);
  }

  lemma MatchedNone(alert: Alert)
    ensures Matched([], alert) == []
  {
  }

  lemma MatchedNext(rules: seq<Rule>, alert: Alert, i: nat)
    requires i < |rules|
    ensures Matched(rules[..i + 1], alert)
         == Matched(rules[..i], alert) + if Matches(rules[i], alert) then [rules[i]] else []
  {
    hide Matches;
    assert rules[..i + 1][..i] == rules[..i];
  }

  // ----- Channels, each once -------------------------------------------------

  /** `ids` and then `more`, each of `more` that isn't there yet. */
  function Union(ids: seq<int>, more: seq<int>): seq<int>
    decreases |more|
  {
    if more == [] then ids
    else Union(if more[0] in ids then ids else ids + [more[0]], more[1..])
  }

  /** `union`. */
  method AddAll(ids: seq<int>, more: seq<int>) returns (r: seq<int>)
    ensures r == Union(ids, more)
  {
    r := ids;
    assert more[0..] == more;
    for i := 0 to |more|
      invariant Union(r, more[i..]) == Union(ids, more)
    {
      assert more[i..][1..] == more[i + 1..];
      if more[i] !in r {
        r := r + [more[i]];
      }
    }
  }

  /** The elements of `s`, each once, in the order in which they first stand. */
  function Firsts(s: seq<int>): (r: seq<int>)
    ensures forall x :: x in r <==> x in s
    ensures forall i :: 0 <= i < |r| ==> r[i] in s
    decreases |s|
  {
    if s == [] then []
    else
      var n := |s| - 1;
      assert s == s[..n] + [s[n]];
      Firsts(s[..n]) + if s[n] in s[..n] then [] else [s[n]]
  }

  lemma {:induction false} UnionIsFirsts(s: seq<int>, more: seq<int>)
    ensures Union(Firsts(s), more) == Firsts(s + more)
    decreases |more|
  {
    if more == [] {
      assert s + more == s;
    } else {
      var t := s + [more[0]];
      assert t[..|s|] == s;
      assert s + more == t + more[1..];
      UnionIsFirsts(t, more[1..]);
      assert Firsts(s) + [] == Firsts(s);
    }
  }

  /** No channel twice. */
  lemma {:induction false} FirstsOnce(s: seq<int>)
    ensures forall i, j :: 0 <= i < j < |Firsts(s)| ==> Firsts(s)[i] != Firsts(s)[j]
    decreases |s|
  {
    if s != [] {
      var n := |s| - 1;
      FirstsOnce(s[..n]);
      assert forall i :: 0 <= i < |Firsts(s[..n])| ==> Firsts(s[..n])[i] in s[..n];
    }
  }

  /** Where a channel first stands in `s`. */
  function FirstIndex(s: seq<int>, x: int): (i: nat)
    requires x in s
    ensures i < |s| && s[i] == x && x !in s[..i]
  {
    if s[0] == x then 0
    else
      assert s == [s[0]] + s[1..];
      assert forall i :: 0 <= i < |s[1..]| ==> s[..i + 1] == [s[0]] + s[1..][..i];
      1 + FirstIndex(s[1..], x)
  }

  /** In the order in which they first stand. */
  lemma {:induction false} FirstsInOrder(s: seq<int>)
    ensures forall i, j :: 0 <= i < j < |Firsts(s)| ==>
              FirstIndex(s, Firsts(s)[i]) < FirstIndex(s, Firsts(s)[j])
    decreases |s|
  {
    if s != [] {
      var n := |s| - 1;
      var init, ids := s[..n], Firsts(s[..n]);
      FirstsInOrder(init);
      forall i | 0 <= i < |ids| ensures FirstIndex(s, ids[i]) == FirstIndex(init, ids[i]) < n {
        assert ids[i] in init;
        var k := FirstIndex(init, ids[i]);
        assert s[..k] == init[..k];
      }
    }
  }

  // ----- The channels of an alert --------------------------------------------

  function Channels(rules: seq<Rule>): (r: seq<int>)
    ensures forall x :: x in r <==> exists rule :: rule in rules && x in rule.channels
  {
    if rules == [] then []
    else
      var n := |rules| - 1;
      assert rules == rules[..n] + [rules[n]];
      Channels(rules[..n]) + rules[n].channels
  }

  function Routed(rules: seq<Rule>, alert: Alert): seq<int> {
    Firsts(Channels(Matching(rules, alert)))
  }

  /** `route`. */
  method Route(rules: seq<Rule>, alert: Alert) returns (ids: seq<int>)
    ensures ids == Routed(rules, alert)
  {
    hide Matching;
    var matched := FindMatching(rules, alert);
    ids := [];
    for i := 0 to |matched|
      invariant ids == Firsts(Channels(matched[..i]))
    {
      assert matched[..i + 1][..i] == matched[..i];
      UnionIsFirsts(Channels(matched[..i]), matched[i].channels);
      ids := AddAll(ids, matched[i].channels);
    }
    assert matched[..|matched|] == matched;
  }

  /** An alert goes to the channels of the rules it matches, up to the first such
      rule that says stop; to each once; in the order in which those rules first
      name them. */
  lemma RoutedIs(rules: seq<Rule>, alert: Alert, n: nat)
    requires IsReach(rules, alert, n)
    ensures
      var ids, named := Routed(rules, alert), Channels(Matched(rules[..n], alert));
      && (forall x :: x in ids <==>
            exists i :: 0 <= i < n && Matches(rules[i], alert) && x in rules[i].channels)
      && (forall i, j :: 0 <= i < j < |ids| ==>
            ids[i] != ids[j] && ids[i] in named && ids[j] in named
            && FirstIndex(named, ids[i]) < FirstIndex(named, ids[j]))
  {
    ReachIsOne(rules, alert, n);
    hide Matches, Stops, IsReach, Reach, FirstIndex;
    var ids, named := Routed(rules, alert), Channels(Matched(rules[..n], alert));
    FirstsOnce(named);
    FirstsInOrder(named);
    hide Firsts, Channels, Matched;
    forall x ensures x in ids <==> exists i :: 0 <= i < n && Matches(rules[i], alert) && x in rules[i].channels {
      assert forall i :: 0 <= i < n ==> rules[..n][i] == rules[i];
    }
  }

  /** Rules after one that matches and stops never matter. */
  lemma RulesAfterStop(rules: seq<Rule>, more: seq<Rule>, alert: Alert, k: nat)
    requires k < |rules| && Stops(rules[k], alert)
    ensures Matching(rules + more, alert) == Matching(rules, alert)
    ensures Routed(rules + more, alert) == Routed(rules, alert)
  {
    hide Stops, Channels, Matched;
    var n := Reach(rules, alert);
    ReachIs(rules, alert);
    var all := rules + more;
    assert all[..n] == rules[..n];
    assert forall i :: 0 <= i < n ==> all[i] == rules[i];
    ReachIsOne(all, alert, n);
  }

  // ----- Reminders and escalations -------------------------------------------

  /** What a rule asks for: minutes, if it asks, and channels. */
  datatype Ask = Ask(minutes: Option<nat>, ids: seq<int>)

  type Asked = Option<(nat, seq<int>)>

  datatype FollowUp = FollowUp(remind: Asked, escalate: Asked)

  function Reminders(rules: seq<Rule>): (r: seq<Ask>)
    ensures |r| == |rules|
    ensures forall i :: 0 <= i < |r| ==> r[i] == Ask(rules[i].remindEvery, rules[i].channels)
  {
    seq(|rules|, i requires 0 <= i < |rules| => Ask(rules[i].remindEvery, rules[i].channels))
  }

  function Escalations(rules: seq<Rule>): (r: seq<Ask>)
    ensures |r| == |rules|
    ensures forall i :: 0 <= i < |r| ==> r[i] == Ask(rules[i].escalateAfter, rules[i].escalateTo)
  {
    seq(|rules|, i requires 0 <= i < |rules| => Ask(rules[i].escalateAfter, rules[i].escalateTo))
  }

  function Least(a: nat, b: nat): nat {
    if a <= b then a else b
  }

  /** One more rule asks. */
  function Join(was: Asked, ask: Ask): Asked {
    match ask.minutes
    case None => was
    case Some(minutes) =>
      match was
      case None => Some((minutes, ask.ids))
      case Some((before, ids)) => Some((Least(before, minutes), Union(ids, ask.ids)))
  }

  function Gathered(asks: seq<Ask>): Asked {
    if asks == [] then None
    else Join(Gathered(asks[..|asks| - 1]), asks[|asks| - 1])
  }

  function Follow(rules: seq<Rule>, alert: Alert): FollowUp {
    FollowUp(Gathered(Reminders(Matching(rules, alert))), Gathered(Escalations(Matching(rules, alert))))
  }

  /** `follow_up`. */
  method FindFollowUp(rules: seq<Rule>, alert: Alert) returns (follow: FollowUp)
    ensures follow == Follow(rules, alert)
  {
    hide Matching, Union;
    follow := FollowUp(None, None);
    var matched := FindMatching(rules, alert);
    ghost var reminders, escalations := Reminders(matched), Escalations(matched);
    for i := 0 to |matched|
      invariant follow == FollowUp(Gathered(reminders[..i]), Gathered(escalations[..i]))
    {
      assert reminders[..i + 1][..i] == reminders[..i] && escalations[..i + 1][..i] == escalations[..i];
      var rule := matched[i];
      if rule.remindEvery.Some? {
        if follow.remind.None? {
          follow := follow.(remind := Some((rule.remindEvery.value, rule.channels)));
        } else {
          var (was, ids) := follow.remind.value;
          ids := AddAll(ids, rule.channels);
          follow := follow.(remind := Some((Least(was, rule.remindEvery.value), ids)));
        }
      }
      if rule.escalateAfter.Some? {
        if follow.escalate.None? {
          follow := follow.(escalate := Some((rule.escalateAfter.value, rule.escalateTo)));
        } else {
          var (was, ids) := follow.escalate.value;
          ids := AddAll(ids, rule.escalateTo);
          follow := follow.(escalate := Some((Least(was, rule.escalateAfter.value), ids)));
        }
      }
    }
    assert reminders[..|matched|] == reminders && escalations[..|matched|] == escalations;
  }

  lemma {:induction false} UnionHas(ids: seq<int>, more: seq<int>, x: int)
    ensures x in Union(ids, more) <==> x in ids || x in more
    decreases |more|
  {
    if more != [] {
      assert more == [more[0]] + more[1..];
      UnionHas(if more[0] in ids then ids else ids + [more[0]], more[1..], x);
    }
  }

  ghost predicate Once(ids: seq<int>) {
    forall i, j :: 0 <= i < j < |ids| ==> ids[i] != ids[j]
  }

  /** `union` adds no repetition and removes none. */
  lemma {:induction false} UnionOnce(ids: seq<int>, more: seq<int>)
    ensures Once(Union(ids, more)) <==> Once(ids)
    decreases |more|
  {
    if more != [] {
      var next := if more[0] in ids then ids else ids + [more[0]];
      UnionOnce(next, more[1..]);
      assert forall i :: 0 <= i < |ids| ==> next[i] == ids[i];
    }
  }

  /** Rule `i` asks. */
  ghost predicate Asks(asks: seq<Ask>, i: nat) {
    i < |asks| && asks[i].minutes.Some?
  }

  /** Rule `i` asks, and for channel `x`. */
  ghost predicate Names(asks: seq<Ask>, i: nat, x: int) {
    Asks(asks, i) && x in asks[i].ids
  }

  /** Nothing is gathered exactly when no rule asks; else the least of their
      minutes. */
  lemma {:induction false} LeastGathered(asks: seq<Ask>)
    ensures Gathered(asks).None? ==> forall i: nat :: !Asks(asks, i)
    ensures Gathered(asks).Some? ==>
              && (exists i: nat :: Asks(asks, i) && asks[i].minutes == Some(Gathered(asks).value.0))
              && (forall i: nat :: Asks(asks, i) ==> Gathered(asks).value.0 <= asks[i].minutes.value)
  {
    if asks != [] {
      hide Union;
      var n := |asks| - 1;
      var init := asks[..n];
      LeastGathered(init);
      assert forall i: nat :: Asks(asks, i) ==> i == n || (Asks(init, i) && asks[i] == init[i]);
      assert Asks(asks, n) <==> asks[n].minutes.Some?;
      if Gathered(init).Some? {
        var i: nat :| Asks(init, i) && init[i].minutes == Some(Gathered(init).value.0);
        assert Asks(asks, i) && asks[i] == init[i];
      }
    }
  }

  /** And the channels of all rules that ask. */
  lemma {:induction false} ChannelsGathered(asks: seq<Ask>, x: int)
    ensures Gathered(asks).Some? && x in Gathered(asks).value.1 <==> exists i: nat :: Names(asks, i, x)
  {
    if asks != [] {
      var n := |asks| - 1;
      var init := asks[..n];
      ChannelsGathered(init, x);
      hide Union;
      assert Names(asks, n, x) <==> asks[n].minutes.Some? && x in asks[n].ids;
      if Gathered(init).Some? {
        UnionHas(Gathered(init).value.1, asks[n].ids, x);
      }
      if i: nat :| Names(init, i, x) {
        assert Names(asks, i, x);
      }
      if i: nat :| Names(asks, i, x) {
        assert i < n ==> Names(init, i, x);
      }
    }
  }

  /** Rule `i` is the first that asks. */
  ghost predicate AsksFirst(asks: seq<Ask>, i: nat) {
    Asks(asks, i) && forall k: nat :: k < i ==> !Asks(asks, k)
  }

  /** Each channel is gathered once exactly when the first rule that asks names
      each of its own once: later rules only add what isn't there, but the first
      one's channels are taken as they are. */
  lemma {:induction false} GatheredOnce(asks: seq<Ask>, i: nat)
    requires AsksFirst(asks, i)
    ensures Gathered(asks).Some? && (Once(Gathered(asks).value.1) <==> Once(asks[i].ids))
  {
    var n := |asks| - 1;
    var init := asks[..n];
    LeastGathered(init);
    assert forall k: nat :: k < n ==> (Asks(init, k) <==> Asks(asks, k));
    hide Union, Once;
    if i < n {
      assert AsksFirst(init, i);
      GatheredOnce(init, i);
      UnionOnce(Gathered(init).value.1, asks[n].ids);
    } else {
      assert forall k: nat :: !Asks(init, k);
    }
  }

  const REMIND_MINUTES := (15, 10_080)
  const ESCALATE_MINUTES := (5, 1440)

  predicate Within(minutes: nat, range: (nat, nat)) {
    range.0 <= minutes <= range.1
  }

  /** `RoutesRequest::validate` accepts the rule. */
  predicate Accepted(rule: Rule, channels: set<int>) {
    && rule.channels != []
    && (forall x :: x in rule.channels + rule.escalateTo ==> x in channels)
    && (rule.remindEvery.Some? ==> Within(rule.remindEvery.value, REMIND_MINUTES))
    && rule.escalateAfter.Some? == (rule.escalateTo != [])
    && (rule.escalateAfter.Some? ==> Within(rule.escalateAfter.value, ESCALATE_MINUTES))
  }

  /** A rule that names a channel twice is accepted, and its reminders go to the
      channel twice; the alert itself goes there once. */
  lemma ReminderTwice(alert: Alert)
    ensures var rule := Rule([], [], [], [], [1, 1], false, Some(15), None, []);
            && Accepted(rule, {1})
            && Follow([rule], alert).remind == Some((15, [1, 1]))
            && Routed([rule], alert) == [1]
  {
    var rule := Rule([], [], [], [], [1, 1], false, Some(15), None, []);
    hide Matching, Channels, Firsts, Reminders, Escalations, Gathered;
    OneRule(rule, alert);
    RemindersOfOne(rule, 15);
    ChannelsOfOne(rule);
    FirstOfTwo(1);
  }

  lemma RemindersOfOne(rule: Rule, minutes: nat)
    requires rule.remindEvery == Some(minutes)
    ensures Gathered(Reminders([rule])) == Some((minutes, rule.channels))
  {
    var asks := [Ask(Some(minutes), rule.channels)];
    assert Reminders([rule]) == asks;
    hide Reminders, Union;
    assert asks[..0] == [] && Gathered([]) == None;
  }

  lemma FirstOfTwo(x: int)
    ensures Firsts([x, x]) == [x]
  {
    assert [x, x][..1] == [x] && [x][..0] == [];
    assert Firsts([]) == [] && Firsts([x]) == [] + [x];
  }

  lemma ChannelsOfOne(rule: Rule)
    ensures Channels([rule]) == rule.channels
  {
    assert [rule][..0] == [] && Channels([]) == [];
    assert Channels([rule]) == [] + rule.channels;
  }

  lemma OneRule(rule: Rule, alert: Alert)
    requires Matches(rule, alert)
    ensures Matching([rule], alert) == [rule]
  {
    hide Matches;
    assert [rule][1..] == [] && Reach([], alert) == 0;
    assert Reach([rule], alert) == 1;
    assert [rule][..1] == [rule] && [rule][..0] == [];
    assert Matched([], alert) == [] && Matched([rule], alert) == [] + [rule];
  }

  /** Reminders go only to channels the alert goes to. */
  lemma RemindersWithinRoute(rules: seq<Rule>, alert: Alert)
    ensures
      var remind := Follow(rules, alert).remind;
      remind.Some? ==> forall x :: x in remind.value.1 ==> x in Routed(rules, alert)
  {
    hide Gathered, Firsts, Channels;
    var matched := Matching(rules, alert);
    hide Matching;
    forall x | Gathered(Reminders(matched)).Some? && x in Gathered(Reminders(matched)).value.1
      ensures x in Routed(rules, alert)
    {
      ChannelsGathered(Reminders(matched), x);
      var i: nat :| Names(Reminders(matched), i, x);
      assert matched[i] in matched && x in matched[i].channels;
    }
  }

  // ----- Which alerts a rule matches -----------------------------------------

  /** A list excludes what it doesn't hold; an empty one excludes nothing. */
  predicate Excludes<T(==)>(list: seq<T>, x: T) {
    list != [] && x !in list
  }

  /** A rule matches exactly the alerts that none of its lists excludes: not that of
      companies, nor that of sites, written with their company, nor that of kinds; one
      with kinds of checks excludes alerts that aren't about a check. */
  lemma MatchesExactly(rule: Rule, alert: Alert)
    ensures Matches(rule, alert) <==>
              && !Excludes(rule.companies, alert.company)
              && !Excludes(rule.sites, alert.company + "/" + alert.site)
              && !Excludes(rule.kinds, alert.kind)
              && (rule.checkKinds != [] ==> alert.checkKind.Some? && alert.checkKind.value in rule.checkKinds)
  {
  }

  /** A rule that doesn't match never matters, nor does it stop those after it. */
  lemma UnmatchedNeverMatters(before: seq<Rule>, rule: Rule, after: seq<Rule>, alert: Alert)
    requires !Matches(rule, alert)
    ensures Routed(before + [rule] + after, alert) == Routed(before + after, alert)
    ensures Follow(before + [rule] + after, alert) == Follow(before + after, alert)
  {
    hide Matching, Channels, Firsts, Gathered, Matches;
    MatchingWithout(before, rule, after, alert);
  }

  lemma {:induction false} MatchingWithout(before: seq<Rule>, rule: Rule, after: seq<Rule>, alert: Alert)
    requires !Matches(rule, alert)
    ensures Matching(before + [rule] + after, alert) == Matching(before + after, alert)
    decreases |before|
  {
    hide Matches, Matching;
    if before == [] {
      assert [] + [rule] + after == [rule] + after && [] + after == after;
      MatchingStarts(rule, after, alert);
    } else {
      var first, rest := before[0], before[1..];
      assert before + [rule] + after == [first] + (rest + [rule] + after);
      assert before + after == [first] + (rest + after);
      MatchingStarts(first, rest + [rule] + after, alert);
      MatchingStarts(first, rest + after, alert);
      MatchingWithout(rest, rule, after, alert);
    }
  }

  /** What the first rule adds: itself, if it matches, and the others, if it doesn't
      stop. */
  lemma MatchingStarts(first: Rule, rest: seq<Rule>, alert: Alert)
    ensures Matching([first] + rest, alert) ==
              (if Matches(first, alert) then [first] else [])
              + (if Matches(first, alert) && first.stop then [] else Matching(rest, alert))
  {
    hide Matches, Matched;
    var rules := [first] + rest;
    assert rules[1..] == rest;
    var n := Reach(rest, alert);
    MatchedFirst(first, if Stops(first, alert) then [] else rest[..n], alert);
    MatchedNone(alert);
    if Stops(first, alert) {
      assert rules[..1] == [first] + [];
    } else {
      assert rules[..n + 1] == [first] + rest[..n];
    }
  }

  lemma {:induction false} MatchedFirst(first: Rule, rest: seq<Rule>, alert: Alert)
    ensures Matched([first] + rest, alert)
         == (if Matches(first, alert) then [first] else []) + Matched(rest, alert)
    decreases |rest|
  {
    hide Matches;
    var rules := [first] + rest;
    if rest == [] {
      assert rules[..0] == [] && Matched([], alert) == [];
    } else {
      var n := |rest| - 1;
      assert rules[..n + 1] == [first] + rest[..n];
      MatchedFirst(first, rest[..n], alert);
    }
  }

  function About(kind: AlertKind, checkKind: Option<string>): Alert {
    Alert(kind, "c", "s", checkKind)
  }

  function Every(): Rule {
    Rule([], [], [], [], [1], false, None, None, [])
  }

  /** One list each, and alerts within and outside it. */
  lemma EachListCounts()
    ensures var rule := Every().(companies := ["c"]);
            Matches(rule, About(Down, None)) && !Matches(rule, Alert(Down, "d", "s", None))
    ensures var rule := Every().(sites := ["c/s"]);
            && Matches(rule, About(Down, None)) && !Matches(rule, Alert(Down, "c", "t", None))
            && !Matches(rule, Alert(Down, "d", "s", None))
    ensures var rule := Every().(kinds := [Down]);
            Matches(rule, About(Down, None)) && !Matches(rule, About(Warning, None))
    ensures var rule := Every().(checkKinds := ["ping"]);
            && Matches(rule, About(Down, Some("ping"))) && !Matches(rule, About(Down, Some("http")))
            && !Matches(rule, About(Down, None))
  {
    assert "c" + "/" + "s" == "c/s" && ("c" + "/" + "t")[2] == 't' && ("d" + "/" + "s")[0] == 'd';
  }

  /** A rule for one kind of alert routes nothing of another. */
  lemma OtherKindNotRouted()
    ensures Routed([Every().(kinds := [Down])], About(Down, None)) == [1]
    ensures Routed([Every().(kinds := [Down])], About(Warning, None)) == []
  {
    var rule := Every().(kinds := [Down]);
    EachListCounts();
    OneRule(rule, About(Down, None));
    NoRule(rule, About(Warning, None));
    hide Matching, Matches, Channels, Firsts;
    ChannelsOfOne(rule);
    NoChannels();
    FirstOfOne(1);
  }

  lemma NoRule(rule: Rule, alert: Alert)
    requires !Matches(rule, alert)
    ensures Matching([rule], alert) == []
  {
    hide Matches;
    assert [rule][1..] == [] && Reach([], alert) == 0;
    assert [rule][..1] == [rule] && [rule][..0] == [];
    assert Matched([], alert) == [] && Matched([rule], alert) == [] + [];
  }

  lemma NoChannels()
    ensures Firsts(Channels([])) == []
  {
  }

  lemma FirstOfOne(x: int)
    ensures Firsts([x]) == [x]
  {
    assert [x][..0] == [] && Firsts([]) == [];
  }

  /** Reminders are accepted every 15 minutes to a week, escalations after five
      minutes to a day, and only with somewhere to go. */
  lemma AcceptedMinutes(minutes: nat)
    ensures Accepted(Every().(remindEvery := Some(minutes)), {1}) <==> 15 <= minutes <= 7 * 24 * 60
    ensures Accepted(Every().(escalateAfter := Some(minutes), escalateTo := [1]), {1}) <==> 5 <= minutes <= 24 * 60
    ensures !Accepted(Every().(escalateAfter := Some(minutes)), {1}) && !Accepted(Every().(escalateTo := [1]), {1})
    ensures !Accepted(Every().(channels := []), {1}) && !Accepted(Every(), {2}) && Accepted(Every(), {1})
    ensures !Accepted(Every().(escalateAfter := Some(minutes), escalateTo := [2]), {1})
  {
    var every := Every();
    var there := every.(escalateAfter := Some(minutes), escalateTo := [2]);
    assert 1 in every.channels + every.escalateTo && 2 in there.channels + there.escalateTo;
  }
}
