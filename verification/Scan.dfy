// The scanner of util/dfa_filter.go over a dictionary: which matches it reports, that
// they are right, and for exactly which dictionaries none is missed.
module Scan {

  type Word = seq<char>
  type Dictionary = set<Word>

  // Both ends are included.
  datatype Match = Match(start: nat, end: nat)

  ghost predicate Begins(d: Dictionary, s: Word) {
    s == [] || exists w :: w in d && s <= w
  }

  // The longest word among s[start..1 + start], ..., s[start..index], if any.
  ghost function Best(d: Dictionary, s: Word, start: nat, index: nat): seq<Match>
    requires index <= |s|
  {
    if index <= start then []
    else if s[start..index] in d then [Match(start, index - 1)]
    else Best(d, s, start, index - 1)
  }

  // The loop of the scanner, from a window [start, end) on; `begun` tells whether
  // the window without its last rune was the beginning of a word.
  ghost function From(d: Dictionary, s: Word, start: nat, end: nat, begun: bool): seq<Match>
    requires start < end <= |s| + 1
    decreases |s| + 1 - end
  {
    if end <= |s| then
      if Begins(d, s[start..end]) then From(d, s, start, end + 1, true)
      else
        // A window that fails restarts at its last rune with two runes, so the last rune
        // of the sentence is never a window of its own.
        (if begun then Best(d, s, start, end - 1) else []) + From(d, s, end - 1, end + 1, false)
    else if begun then Best(d, s, start, end - 1) else []
  }

  lemma FromStep(d: Dictionary, s: Word, start: nat, end: nat, begun: bool)
    requires start < end <= |s| + 1
    ensures var found := if begun then Best(d, s, start, end - 1) else [];
            From(d, s, start, end, begun)
            == if end > |s| then found
               else if Begins(d, s[start..end]) then From(d, s, start, end + 1, true)
               else found + From(d, s, end - 1, end + 1, false)
  {
  }

  ghost function Matches(d: Dictionary, s: Word): seq<Match> {
    From(d, s, 0, 1, false)
  }

  // What the loop knows about its window.
  ghost predicate Window(d: Dictionary, s: Word, start: nat, end: nat, begun: bool) {
    && start < end <= |s| + 1
    && if begun then start + 1 < end && Begins(d, s[start..end - 1]) else end == start + 2 || (start, end) == (0, 1)
  }

  lemma WindowStep(d: Dictionary, s: Word, start: nat, end: nat, begun: bool)
    requires Window(d, s, start, end, begun) && end <= |s|
    ensures if Begins(d, s[start..end]) then Window(d, s, start, end + 1, true)
            else Window(d, s, end - 1, end + 1, false)
  {
  }

  // ---- soundness ----------------------------------------------------------------

  // A dictionary word lies at m, and no longer one starts there.
  ghost predicate Longest(d: Dictionary, s: Word, m: Match) {
    && m.start <= m.end < |s|
    && s[m.start..m.end + 1] in d
    && forall j :: m.end + 1 < j <= |s| ==> s[m.start..j] !in d
  }

  ghost predicate Ordered(ms: seq<Match>) {
    forall i, j :: 0 <= i < j < |ms| ==> ms[i].end < ms[j].start
  }

  lemma {:induction false} BestIs(d: Dictionary, s: Word, start: nat, index: nat)
    requires index <= |s|
    ensures var b := Best(d, s, start, index);
            if b == [] then forall j :: start < j <= index ==> s[start..j] !in d
            else |b| == 1 && b[0].start == start <= b[0].end < index && s[start..b[0].end + 1] in d
                 && forall j :: b[0].end + 1 < j <= index ==> s[start..j] !in d
    decreases index
  {
    if start < index {
      BestIs(d, s, start, index - 1);
    }
  }

  lemma LongerFails(d: Dictionary, s: Word, start: nat, end: nat)
    requires start < end <= |s| && !Begins(d, s[start..end])
    ensures forall j :: end <= j <= |s| ==> s[start..j] !in d
  {
    forall j | end <= j <= |s| ensures s[start..j] !in d {
      assert s[start..end] == s[start..j][..end - start];
    }
  }

  // Matches from `start` on, in order, each the longest at its place.
  ghost predicate SoundFrom(d: Dictionary, s: Word, start: nat, ms: seq<Match>) {
    Ordered(ms) && forall i :: 0 <= i < |ms| ==> ms[i].start >= start && Longest(d, s, ms[i])
  }

  // What a closing window reports lies before its last rune.
  lemma BestSound(d: Dictionary, s: Word, start: nat, end: nat)
    requires start < end <= |s| + 1 && (end <= |s| ==> !Begins(d, s[start..end]))
    ensures var b := Best(d, s, start, end - 1);
            SoundFrom(d, s, start, b) && forall i :: 0 <= i < |b| ==> b[i].end < end - 1
  {
    BestIs(d, s, start, end - 1);
    if end <= |s| {
      LongerFails(d, s, start, end);
    }
  }

  lemma JoinSound(d: Dictionary, s: Word, start: nat, head: seq<Match>, cut: nat, rest: seq<Match>)
    requires SoundFrom(d, s, start, head) && SoundFrom(d, s, cut, rest) && start <= cut
    requires forall i :: 0 <= i < |head| ==> head[i].end < cut
    ensures SoundFrom(d, s, start, head + rest)
  {
  }

  lemma {:induction false} FromSound(d: Dictionary, s: Word, start: nat, end: nat, begun: bool)
    requires Window(d, s, start, end, begun)
    ensures SoundFrom(d, s, start, From(d, s, start, end, begun))
    decreases |s| + 1 - end
  {
    hide Longest, Best, Begins;
    FromStep(d, s, start, end, begun);
    if end <= |s| {
      WindowStep(d, s, start, end, begun);
      if Begins(d, s[start..end]) {
        FromSound(d, s, start, end + 1, true);
      } else {
        BestSound(d, s, start, end);
        FromSound(d, s, end - 1, end + 1, false);
        JoinSound(d, s, start, if begun then Best(d, s, start, end - 1) else [], end - 1, From(d, s, end - 1, end + 1, false));
      }
    } else {
      BestSound(d, s, start, end);
    }
  }

  // For every dictionary and sentence: the matches are in bounds, in order and disjoint,
  // and each is the longest dictionary word at its place.
  lemma Sound(d: Dictionary, s: Word)
    ensures Ordered(Matches(d, s))
    ensures forall m :: m in Matches(d, s) ==> Longest(d, s, m)
  {
    FromSound(d, s, 0, 1, false);
  }

  // ---- completeness -------------------------------------------------------------

  ghost predicate WordAt(d: Dictionary, s: Word, p: nat) {
    p <= |s| && exists w :: w in d && w <= s[p..]
  }

  ghost predicate StartsAt(ms: seq<Match>, p: nat) {
    exists i :: 0 <= i < |ms| && ms[i].start == p
  }

  // Every place where a dictionary word starts is reported, in every sentence.
  ghost predicate Complete(d: Dictionary) {
    forall s: Word, p: nat :: WordAt(d, s, p) ==> StartsAt(Matches(d, s), p)
  }

  // No word of one rune, and no rune both starts a word and stands inside one.
  ghost predicate Clean(d: Dictionary) {
    && (forall w :: w in d ==> |w| >= 2)
    && (forall u, v, j :: u in d && v in d && 1 <= j < |v| ==> u[0] != v[j])
  }

  lemma NotInside(d: Dictionary, s: Word, start: nat, end: nat, p: nat)
    requires Clean(d) && start < p < end <= |s| && Begins(d, s[start..end])
    ensures !WordAt(d, s, p)
  {
    var v :| v in d && s[start..end] <= v;
    assert v[p - start] == s[start..end][p - start] == s[p];
    forall u | u in d ensures !(u <= s[p..]) {
      assert u[0] != v[p - start];
    }
  }

  lemma WordCut(d: Dictionary, s: Word, p: nat) returns (j: nat)
    requires Clean(d) && WordAt(d, s, p)
    ensures p + 2 <= j <= |s| && s[p..j] in d
  {
    var w :| w in d && w <= s[p..];
    j := p + |w|;
    assert s[p..j] == w;
  }

  // A window closes on the word at its start.
  lemma BestFound(d: Dictionary, s: Word, start: nat, end: nat, begun: bool)
    requires Clean(d) && Window(d, s, start, end, begun) && WordAt(d, s, start)
    requires end <= |s| ==> !Begins(d, s[start..end])
    ensures begun && StartsAt(Best(d, s, start, end - 1), start)
  {
    var j := WordCut(d, s, start);
    if end <= |s| {
      LongerFails(d, s, start, end);
    }
    BestIs(d, s, start, end - 1);
    assert Best(d, s, start, end - 1)[0].start == start;
  }

  lemma AnyStart(head: seq<Match>, rest: seq<Match>, p: nat)
    requires StartsAt(head, p) || StartsAt(rest, p)
    ensures StartsAt(head + rest, p)
  {
    var ms := head + rest;
    if i :| 0 <= i < |head| && head[i].start == p {
      assert ms[i] == head[i];
    } else {
      var i :| 0 <= i < |rest| && rest[i].start == p;
      assert ms[|head| + i] == rest[i];
    }
  }

  lemma {:induction false} FromComplete(d: Dictionary, s: Word, start: nat, end: nat, begun: bool, p: nat)
    requires Clean(d) && Window(d, s, start, end, begun) && start <= p && WordAt(d, s, p)
    ensures StartsAt(From(d, s, start, end, begun), p)
    decreases |s| + 1 - end
  {
    hide Clean, WordAt, StartsAt, Best;
    if end <= |s| && Begins(d, s[start..end]) {
      WindowStep(d, s, start, end, begun);
      FromComplete(d, s, start, end + 1, true, p);
    } else {
      if begun && start < p < end - 1 {
        NotInside(d, s, start, end - 1, p);
      }
      var j := WordCut(d, s, p);
      if p == start {
        BestFound(d, s, start, end, begun);
      }
      if end <= |s| {
        WindowStep(d, s, start, end, begun);
        if p != start {
          FromComplete(d, s, end - 1, end + 1, false, p);
        }
        AnyStart(if begun then Best(d, s, start, end - 1) else [], From(d, s, end - 1, end + 1, false), p);
      }
    }
  }

  // A match starts where the current window does or where a later one can.
  lemma {:induction false} FromStarts(d: Dictionary, s: Word, start: nat, end: nat, begun: bool, p: nat)
    requires start < end <= |s| + 1 && StartsAt(From(d, s, start, end, begun), p)
    ensures p == start || p >= end - 1
    decreases |s| + 1 - end
  {
    if end <= |s| && Begins(d, s[start..end]) {
      FromStarts(d, s, start, end + 1, true, p);
    } else {
      BestIs(d, s, start, end - 1);
      if end <= |s| && p != start {
        var rest := From(d, s, end - 1, end + 1, false);
        var ms := From(d, s, start, end, begun);
        var i :| 0 <= i < |ms| && ms[i].start == p;
        assert rest[i - (|ms| - |rest|)] == ms[i];
        FromStarts(d, s, end - 1, end + 1, false, p);
      }
    }
  }

  // While the sentence follows a word from its start, the window only grows.
  lemma {:induction false} Grows(d: Dictionary, s: Word, v: Word, j: nat, end: nat)
    requires v in d && j <= |v| && j <= |s| && s[..j] == v[..j] && 1 <= end <= j
    ensures From(d, s, 0, end, end > 1) == From(d, s, 0, j + 1, true)
    decreases j - end
  {
    assert s[0..end] == s[..j][..end] == v[..j][..end] == v[..end];
    assert s[0..end] <= v;
    assert Begins(d, s[0..end]);
    if end < j {
      Grows(d, s, v, j, end + 1);
    }
  }

  lemma MissesInside(d: Dictionary, u: Word, v: Word, j: nat)
    requires u in d && v in d && u != [] && 1 <= j < |v| && u[0] == v[j]
    ensures !Complete(d)
  {
    var s := v[..j] + u;
    assert s[..j + 1] == v[..j + 1];
    Grows(d, s, v, j + 1, 1);
    assert u <= s[j..];
    assert WordAt(d, s, j);
    if StartsAt(Matches(d, s), j) {
      FromStarts(d, s, 0, j + 2, true, j);
    }
  }

  lemma MissesSingle(d: Dictionary, w: Word)
    requires w in d && |w| == 1
    ensures !Complete(d)
  {
    var s := w + w;
    assert s[..1] == w[..1];
    Grows(d, s, w, 1, 1);
    assert w <= s[1..];
    assert WordAt(d, s, 1);
    if Begins(d, s[0..2]) {
      BestIs(d, s, 0, 2);
      assert From(d, s, 0, 2, true) == Best(d, s, 0, 2);
    } else {
      BestIs(d, s, 0, 1);
      assert From(d, s, 1, 3, false) == [];
      assert From(d, s, 0, 2, true) == Best(d, s, 0, 1);
    }
  }

  // The scanner misses nothing in any sentence if and only if the dictionary is clean.
  lemma CompleteExactly(d: Dictionary)
    requires [] !in d
    ensures Complete(d) <==> Clean(d)
  {
    if Clean(d) {
      forall s: Word, p: nat | WordAt(d, s, p) ensures StartsAt(Matches(d, s), p) {
        FromComplete(d, s, 0, 1, false, p);
      }
    } else if w :| w in d && |w| < 2 {
      MissesSingle(d, w);
    } else {
      var u, v, j :| u in d && v in d && 1 <= j < |v| && u[0] == v[j];
      MissesInside(d, u, v, j);
    }
  }

  // In a clean dictionary each such place has exactly one match, its longest word.
  lemma CleanReports(d: Dictionary, s: Word, p: nat) returns (i: nat)
    requires Clean(d) && WordAt(d, s, p)
    ensures var ms := Matches(d, s);
            && i < |ms| && ms[i].start == p && Longest(d, s, ms[i])
            && forall k :: 0 <= k < |ms| && ms[k].start == p ==> k == i
  {
    FromComplete(d, s, 0, 1, false, p);
    FromSound(d, s, 0, 1, false);
    var ms := Matches(d, s);
    i :| 0 <= i < |ms| && ms[i].start == p;
    forall k | 0 <= k < |ms| && k != i ensures ms[k].start != p {
      if k < i {
        assert ms[k].end < ms[i].start;
      } else {
        assert ms[i].end < ms[k].start;
      }
    }
  }

  // ---- every dictionary, exactly ---------------------------------------------------------

  // The window that starts at q fails on rune p, where the next one starts.
  ghost predicate Follows(d: Dictionary, s: Word, q: nat, p: nat) {
    q < p < |s| && !Begins(d, s[q..p + 1]) && (p == q + 1 || Begins(d, s[q..p]))
  }

  // Where windows start.
  ghost predicate Start(d: Dictionary, s: Word, p: nat)
    decreases p
  {
    p == 0 || exists q :: 0 <= q < p && Start(d, s, q) && Follows(d, s, q, p)
  }

  // A window away from the start of the sentence is only looked at once two of its runes
  // begin a word.
  ghost predicate Tried(d: Dictionary, s: Word, p: nat) {
    p == 0 || (p + 2 <= |s| && Begins(d, s[p..p + 2]))
  }

  ghost predicate Reported(d: Dictionary, s: Word, m: Match) {
    Longest(d, s, m) && Start(d, s, m.start) && Tried(d, s, m.start)
  }

  lemma BeginsLess(d: Dictionary, s: Word, q: nat, k: nat, l: nat)
    requires q <= k <= l <= |s| && Begins(d, s[q..l])
    ensures Begins(d, s[q..k])
  {
    if k > q {
      var w :| w in d && s[q..l] <= w;
      assert s[q..k] == s[q..l][..k - q];
      assert s[q..k] <= w;
    }
  }

  lemma FollowsOnce(d: Dictionary, s: Word, q: nat, p: nat, p': nat)
    requires Follows(d, s, q, p) && Follows(d, s, q, p')
    ensures p == p'
  {
    if p < p' {
      BeginsLess(d, s, q, p + 1, p');
    } else if p' < p {
      BeginsLess(d, s, q, p' + 1, p);
    }
  }

  // Windows start one after the other.
  lemma {:induction false} StartsChain(d: Dictionary, s: Word, q: nat, p: nat) returns (next: nat)
    requires Start(d, s, q) && Start(d, s, p) && q < p
    ensures Follows(d, s, q, next) && next <= p
    decreases p
  {
    var r :| 0 <= r < p && Start(d, s, r) && Follows(d, s, r, p);
    if r == q {
      next := p;
    } else if q < r {
      next := StartsChain(d, s, q, r);
    } else {
      next := StartsChain(d, s, r, q);
      FollowsOnce(d, s, r, next, p);
    }
  }

  lemma BestExactly(d: Dictionary, s: Word, start: nat, end: nat, m: Match)
    requires start < end <= |s| + 1 && (end <= |s| ==> !Begins(d, s[start..end]))
    ensures m in Best(d, s, start, end - 1) <==> Longest(d, s, m) && m.start == start
  {
    BestIs(d, s, start, end - 1);
    if end <= |s| {
      LongerFails(d, s, start, end);
    }
  }

  // Before the next window none starts.
  lemma NoneBetween(d: Dictionary, s: Word, start: nat, p: nat, q: nat)
    requires Start(d, s, start) && Follows(d, s, start, p) && start < q < p
    ensures !Start(d, s, q)
  {
    if Start(d, s, q) {
      var next := StartsChain(d, s, start, q);
      FollowsOnce(d, s, start, next, p);
    }
  }

  lemma NoFollower(d: Dictionary, s: Word, start: nat)
    requires start < |s| ==> Begins(d, s[start..]) || start + 1 == |s|
    ensures forall p: nat :: !Follows(d, s, start, p)
  {
    forall p: nat ensures !Follows(d, s, start, p) {
      if start < p < |s| {
        assert s[start..] == s[start..|s|];
        BeginsLess(d, s, start, p + 1, |s|);
      }
    }
  }

  lemma NoneAfter(d: Dictionary, s: Word, start: nat, q: nat)
    requires Start(d, s, start) && start < q && (start < |s| ==> Begins(d, s[start..]) || start + 1 == |s|)
    ensures !Start(d, s, q)
  {
    hide Start, Follows;
    NoFollower(d, s, start);
    if Start(d, s, q) {
      var next := StartsChain(d, s, start, q);
    }
  }

  // What the loop knows of a window, and what it will report from it on.
  ghost predicate Looking(d: Dictionary, s: Word, start: nat, end: nat, begun: bool) {
    && Window(d, s, start, end, begun) && Start(d, s, start)
    && ((start, end, begun) == (0, 2, false) ==> |s| == 0 || !Begins(d, s[0..1]))
    && (begun && start > 0 ==> end >= start + 3)
  }

  lemma LongestBegins(d: Dictionary, s: Word, m: Match)
    requires Longest(d, s, m)
    ensures Begins(d, s[m.start..m.start + 1])
  {
    assert s[m.start..m.start + 1] <= s[m.start..m.end + 1];
  }

  lemma ClosedWindow(d: Dictionary, s: Word, start: nat, end: nat, begun: bool, m: Match)
    requires Looking(d, s, start, end, begun) && (end <= |s| ==> !Begins(d, s[start..end]))
    requires (start, end) != (0, 1) || |s| == 0
    ensures m in (if begun then Best(d, s, start, end - 1) else []) <==> Reported(d, s, m) && m.start == start
  {
    hide Start, Best;
    BestExactly(d, s, start, end, m);
    if begun && start > 0 {
      BeginsLess(d, s, start, start + 2, end - 1);
    }
    if !begun && start == 0 && Longest(d, s, m) {
      LongestBegins(d, s, m);
    }
  }

  lemma LookingGrows(d: Dictionary, s: Word, start: nat, end: nat, begun: bool)
    requires Looking(d, s, start, end, begun) && end <= |s| && Begins(d, s[start..end])
    ensures Looking(d, s, start, end + 1, true)
  {
    hide Start;
  }

  lemma LookingAgain(d: Dictionary, s: Word)
    requires |s| > 0 && !Begins(d, s[0..1])
    ensures Looking(d, s, 0, 2, false)
  {
  }

  lemma LookingMoves(d: Dictionary, s: Word, start: nat, end: nat, begun: bool)
    requires Looking(d, s, start, end, begun) && end <= |s| && !Begins(d, s[start..end]) && (start, end) != (0, 1)
    ensures Follows(d, s, start, end - 1) && Looking(d, s, end - 1, end + 1, false)
  {
    NextStarts(d, s, start, end - 1);
  }

  lemma LookingEnds(d: Dictionary, s: Word, start: nat, end: nat, begun: bool)
    requires Looking(d, s, start, end, begun) && end > |s|
    ensures start < |s| ==> Begins(d, s[start..]) || start + 1 == |s|
  {
    if begun {
      assert s[start..] == s[start..end - 1];
    }
  }

  lemma {:induction false} FromExactly(d: Dictionary, s: Word, start: nat, end: nat, begun: bool, m: Match)
    requires Looking(d, s, start, end, begun)
    ensures m in From(d, s, start, end, begun) <==> Reported(d, s, m) && m.start >= start
    decreases |s| + 1 - end
  {
    hide Reported, Best, Start, Begins, From, Follows, StartsAt;
    FromStep(d, s, start, end, begun);
    ReportedStarts(d, s, m);
    if end <= |s| && Begins(d, s[start..end]) {
      LookingGrows(d, s, start, end, begun);
      FromExactly(d, s, start, end + 1, true, m);
    } else if (start, end) == (0, 1) && |s| > 0 {
      LookingAgain(d, s);
      FromExactly(d, s, 0, 2, false, m);
    } else {
      ClosedWindow(d, s, start, end, begun, m);
      if end <= |s| {
        LookingMoves(d, s, start, end, begun);
        FromExactly(d, s, end - 1, end + 1, false, m);
        if start < m.start < end - 1 {
          NoneBetween(d, s, start, end - 1, m.start);
        }
      } else {
        LookingEnds(d, s, start, end, begun);
        if m.start > start {
          NoneAfter(d, s, start, m.start);
        }
      }
    }
  }

  lemma ReportedStarts(d: Dictionary, s: Word, m: Match)
    ensures Reported(d, s, m) ==> Start(d, s, m.start)
  {
  }

  lemma NextStarts(d: Dictionary, s: Word, start: nat, p: nat)
    requires Start(d, s, start) && Follows(d, s, start, p)
    ensures Start(d, s, p)
  {
  }

  // The scanner reports exactly the longest words where a window starts, and away from the
  // start of the sentence only where two runes begin a word.
  lemma MatchesExactly(d: Dictionary, s: Word, m: Match)
    ensures m in Matches(d, s) <==> Reported(d, s, m)
  {
    FromExactly(d, s, 0, 1, false, m);
  }
}
