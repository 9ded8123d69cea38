// The word filter of util/dfa_filter.go: a trie of heap nodes and the scanner over it.
module Filter {
  import opened Scan

  class TrieNode {
    var isEndOfWord: bool
    var children: map<char, TrieNode>

    constructor ()
      ensures !isEndOfWord && children == map[]
    {
      isEndOfWord, children := false, map[];
    }
  }

  class DFAUtil {
    const root: TrieNode
    // The node each path from the root leads to.
    ghost var nodes: map<Word, TrieNode>

    // Paths and child links agree, and different paths lead to different nodes: the graph
    // is a tree.
    ghost predicate Tree()
      reads this, nodes.Values
    {
      && [] in nodes && nodes[[]] == root
      && (forall p, q :: p in nodes && q in nodes && nodes[p] == nodes[q] ==> p == q)
      && (forall p, c :: p in nodes && c in nodes[p].children ==> Child(p, c) in nodes && nodes[p].children[c] == nodes[Child(p, c)])
      && (forall p, c :: Child(p, c) in nodes ==> p in nodes && c in nodes[p].children)
    }

    // Every node but the root lies on the path of a word.
    ghost predicate Valid()
      reads this, nodes.Values
    {
      Tree() && forall p :: p in nodes ==> Begins(Words(), p)
    }

    // The words the trie accepts.
    ghost function Words(): Dictionary
      reads this, nodes.Values
    {
      set p | p in nodes && nodes[p].isEndOfWord
    }

    constructor ()
      ensures Valid() && Words() == {} && fresh(nodes.Values)
    {
      root := new TrieNode();
      new;
      nodes := map[[] := root];
    }

    lemma {:induction false} Closed(p: Word, w: Word)
      requires Tree() && w in nodes && p <= w
      ensures p in nodes
      decreases |w|
    {
      if |p| < |w| {
        assert p <= w[..|w| - 1] && Child(w[..|w| - 1], w[|w| - 1]) == w;
        Closed(p, w[..|w| - 1]);
      } else {
        assert p == w;
      }
    }

    // A path leads somewhere exactly when a word begins with it.
    lemma PathsBegin(p: Word)
      requires Valid()
      ensures p in nodes <==> Begins(Words(), p)
    {
      if Begins(Words(), p) && p != [] {
        var w :| w in Words() && p <= w;
        Closed(p, w);
      }
    }

    lemma Follow(p: Word, c: char)
      requires Tree() && p in nodes
      ensures c in nodes[p].children <==> Child(p, c) in nodes
    {
    }

    method InsertWord(word: Word)
      requires Valid()
      modifies this, nodes.Values
      ensures Valid() && fresh(nodes.Values - old(nodes.Values))
      ensures Words() == old(Words()) + {word}
    {
      hide Begins;
      var currNode := root;
      ghost var before := Words();
      assert word[..0] == [];
      for i := 0 to |word|
        invariant Tree() && fresh(nodes.Values - old(nodes.Values))
        invariant word[..i] in nodes && nodes[word[..i]] == currNode
        invariant forall p :: p in nodes ==> Begins(before, p) || p <= word
        invariant Words() == before
      {
        var c := word[i];
        assert word[..i + 1] == Child(word[..i], c);
        Follow(word[..i], c);
        if c !in currNode.children {
          currNode := Grow(word[..i], currNode, c);
        } else {
          currNode := currNode.children[c];
        }
      }
      assert word[..|word|] == word;
      currNode.isEndOfWord := true;
      BeginsMore(before, word, nodes.Keys);
      assert Words() == before + {word};
    }

    // A new node for c under the node of path p.
    method Grow(ghost p: Word, node: TrieNode, c: char) returns (child: TrieNode)
      requires Tree() && p in nodes && nodes[p] == node && Child(p, c) !in nodes
      modifies this`nodes, node`children
      ensures fresh(child) && nodes == old(nodes)[Child(p, c) := child]
      ensures Tree() && Words() == old(Words())
    {
      hide Child;
      ChildOnce(p, c);
      child := new TrieNode();
      node.children := node.children[c := child];
      nodes := nodes[Child(p, c) := child];
      assert forall q :: q in old(nodes) ==> nodes[q] == old(nodes)[q] && nodes[q] != child;
      assert forall q :: q in old(nodes) && q != p ==> nodes[q] != node && nodes[q].children == old(nodes[q].children);
      forall q, d | q in nodes && d in nodes[q].children
        ensures Child(q, d) in nodes && nodes[q].children[d] == nodes[Child(q, d)]
      {
        assert q in old(nodes);
        assert (q == p && d == c) || d in old(nodes[q].children);
      }
      forall q, d | Child(q, d) in nodes ensures q in nodes && d in nodes[q].children {
        assert (q == p && d == c) || Child(q, d) in old(nodes);
      }
    }

    // The walk StartsWith and SearchWord share: the node of the path, if there is one.
    method Walk(path: Word) returns (node: TrieNode?)
      requires Valid()
      ensures node == null <==> !Begins(Words(), path)
      ensures node != null ==> path in nodes && nodes[path] == node
    {
      node := root;
      assert path[..0] == [];
      for i := 0 to |path|
        invariant path[..i] in nodes && nodes[path[..i]] == node
      {
        assert path[..i + 1] == Child(path[..i], path[i]);
        Follow(path[..i], path[i]);
        if path[i] !in node.children {
          if path in nodes {
            Closed(path[..i + 1], path);
          }
          PathsBegin(path);
          return null;
        }
        node := node.children[path[i]];
      }
      assert path[..|path|] == path;
      PathsBegin(path);
    }

    method StartsWith(prefix: Word) returns (r: bool)
      requires Valid()
      ensures r <==> Begins(Words(), prefix)
    {
      var node := Walk(prefix);
      return node != null;
    }

    method SearchWord(word: Word) returns (r: bool)
      requires Valid()
      ensures r <==> word in Words()
    {
      var node := Walk(word);
      if node == null {
        assert word in Words() ==> word <= word;
        return false;
      }
      return node.isEndOfWord;
    }

    method SearchSentence(sentence: Word) returns (matchIndexList: seq<Match>)
      requires Valid()
      ensures matchIndexList == Matches(Words(), sentence)
    {
      hide Best, Begins, From;
      var start: nat, end: nat := 0, 1;
      var startsWith := false;
      matchIndexList := [];
      ghost var d := Words();
      while end <= |sentence|
        invariant 0 <= start < end <= |sentence| + 1
        invariant Matches(d, sentence) == matchIndexList + From(d, sentence, start, end, startsWith)
        decreases |sentence| + 1 - end
      {
        FromStep(d, sentence, start, end, startsWith);
        ghost var tail := From(d, sentence, end - 1, end + 1, false);
        var begins := StartsWith(sentence[start..end]);
        if begins {
          startsWith := true;
          end := end + 1;
        } else {
          if startsWith {
            var found := LongestWord(sentence, start, end - 1);
            assert matchIndexList + (found + tail) == matchIndexList + found + tail;
            matchIndexList := matchIndexList + found;
          }
          start, end := end - 1, end + 1;
          startsWith := false;
        }
      }
      FromStep(d, sentence, start, end, startsWith);
      if startsWith {
        var found := LongestWord(sentence, start, end - 1);
        matchIndexList := matchIndexList + found;
      }
    }

    // The inner loop of SearchSentence, from long to short.
    method LongestWord(sentence: Word, start: nat, last: nat) returns (found: seq<Match>)
      requires Valid() && last <= |sentence|
      ensures found == Best(Words(), sentence, start, last)
    {
      var index: nat := last;
      while index > start
        invariant index <= last
        invariant Best(Words(), sentence, start, index) == Best(Words(), sentence, start, last)
      {
        var isWord := SearchWord(sentence[start..index]);
        if isWord {
          return [Match(start, index - 1)];
        }
        index := index - 1;
      }
      return [];
    }

    method IsMatch(sentence: Word) returns (r: bool)
      requires Valid()
      ensures r <==> Matches(Words(), Normalized(sentence)) != []
    {
      var matches := SearchSentence(Normalized(sentence));
      return |matches| > 0;
    }

    // Without a match the sentence comes back as it was; otherwise its normalised form
    // with exactly the matched positions overwritten.
    method HandleWord(sentence: Word, replaceCh: char) returns (r: Word)
      requires Valid()
      ensures var n := Normalized(sentence);
              var ms := Matches(Words(), n);
              if ms == [] then r == sentence
              else |r| == |n| && forall i :: 0 <= i < |n| ==> r[i] == if Covered(ms, i) then replaceCh else n[i]
    {
      hide Begins, Best, From, Normalized, Ordered, Matches;
      var n := Normalized(sentence);
      var matches := SearchSentence(n);
      if |matches| == 0 {
        return sentence;
      }
      Sound(Words(), n);
      var runes := new char[|n|](i requires 0 <= i < |n| => n[i]);
      for k := 0 to |matches|
        invariant forall i :: 0 <= i < |n| ==> runes[i] == if Covered(matches[..k], i) then replaceCh else n[i]
      {
        var m := matches[k];
        assert m in Matches(Words(), n);
        var index := m.start;
        while index <= m.end
          invariant m.start <= index <= m.end + 1
          invariant forall i :: 0 <= i < |n| ==>
            runes[i] == if Covered(matches[..k], i) || m.start <= i < index then replaceCh else n[i]
        {
          runes[index] := replaceCh;
          index := index + 1;
        }
        CoveredMore(matches, k);
      }
      assert matches[..|matches|] == matches;
      return runes[..];
    }
  }

  ghost predicate Covered(ms: seq<Match>, i: nat) {
    exists k :: 0 <= k < |ms| && ms[k].start <= i <= ms[k].end
  }

  lemma CoveredMore(ms: seq<Match>, k: nat)
    requires k < |ms|
    ensures forall i: nat :: Covered(ms[..k + 1], i) <==> Covered(ms[..k], i) || ms[k].start <= i <= ms[k].end
  {
    forall i: nat
      ensures Covered(ms[..k + 1], i) <==> Covered(ms[..k], i) || ms[k].start <= i <= ms[k].end
    {
      if Covered(ms[..k], i) {
        var j :| 0 <= j < k && ms[..k][j].start <= i <= ms[..k][j].end;
        assert ms[..k + 1][j] == ms[..k][j];
      }
      if ms[k].start <= i <= ms[k].end {
        assert ms[..k + 1][k] == ms[k];
      }
      if Covered(ms[..k + 1], i) {
        var j :| 0 <= j < k + 1 && ms[..k + 1][j].start <= i <= ms[..k + 1][j].end;
        if j < k {
          assert ms[..k][j] == ms[..k + 1][j];
        }
      }
    }
  }

  // unicode.IsSpace
  predicate Space(c: char) {
    || '\t' <= c <= '\r' || c == ' ' || c == '\U{0085}' || c == '\U{00A0}' || c == '\U{1680}'
    || '\U{2000}' <= c <= '\U{200a}' || c == '\U{2028}' || c == '\U{2029}' || c == '\U{202f}'
    || c == '\U{205f}' || c == '\U{3000}'
  }

  function TrimLeft(s: Word): Word {
    if s != [] && Space(s[0]) then TrimLeft(s[1..]) else s
  }

  function TrimRight(s: Word): Word {
    if s != [] && Space(s[|s| - 1]) then TrimRight(s[..|s| - 1]) else s
  }

  function Erase(s: Word, c: char): Word {
    if s == [] then [] else if s[0] == c then Erase(s[1..], c) else [s[0]] + Erase(s[1..], c)
  }

  function Normalized(s: Word): Word {
    EraseBoth(TrimRight(TrimLeft(s)))
  }

  predicate Erased(c: char) { c == ' ' || c == '&' }

  // How many runes are neither ' ' nor '&'.
  function Kept(s: Word): nat {
    if s == [] then 0 else (if Erased(s[0]) then 0 else 1) + Kept(s[1..])
  }

  function EraseBoth(s: Word): Word {
    Erase(Erase(s, ' '), '&')
  }

  lemma {:induction false} EraseAppend(a: Word, b: Word, c: char)
    ensures Erase(a + b, c) == Erase(a, c) + Erase(b, c)
  {
    if a == [] {
      assert a + b == b;
    } else {
      assert (a + b)[0] == a[0] && (a + b)[1..] == a[1..] + b;
      EraseAppend(a[1..], b, c);
    }
  }

  lemma EraseBothAppend(a: Word, b: Word)
    ensures EraseBoth(a + b) == EraseBoth(a) + EraseBoth(b)
  {
    EraseAppend(a, b, ' ');
    EraseAppend(Erase(a, ' '), Erase(b, ' '), '&');
  }

  lemma {:induction false} EraseBothCounts(s: Word)
    ensures |EraseBoth(s)| == Kept(s) && forall c :: c in EraseBoth(s) ==> !Erased(c)
  {
    if s == [] {
    } else {
      EraseBothCounts(s[1..]);
      EraseBothAppend([s[0]], s[1..]);
      EraseOne(s[0]);
      assert s == [s[0]] + s[1..];
    }
  }

  lemma EraseOne(c: char)
    ensures EraseBoth([c]) == if Erased(c) then [] else [c]
  {
    assert [c][1..] == [] && [c] + [] == [c];
    if c == ' ' {
      assert Erase([c], ' ') == [];
    } else {
      assert Erase([c], ' ') == [c];
      assert Erase([c], '&') == if c == '&' then [] else [c];
    }
  }

  // Each kept rune stands behind those kept before it.
  lemma ErasedPlace(s: Word, p: nat)
    requires p < |s| && !Erased(s[p])
    ensures var k := Kept(s[..p]); k < |EraseBoth(s)| && EraseBoth(s)[k] == s[p]
  {
    var a, b := s[..p], s[p + 1..];
    assert s == a + ([s[p]] + b);
    EraseBothAppend(a, [s[p]] + b);
    EraseBothAppend([s[p]], b);
    EraseOne(s[p]);
    EraseBothCounts(a);
  }

  lemma {:induction false} TrimLeftIs(s: Word) returns (i: nat)
    ensures i <= |s| && TrimLeft(s) == s[i..] && (i < |s| ==> !Space(s[i])) && forall p :: 0 <= p < i ==> Space(s[p])
  {
    if s == [] || !Space(s[0]) {
      i := 0;
    } else {
      i := TrimLeftIs(s[1..]);
      i := i + 1;
    }
  }

  lemma {:induction false} TrimRightIs(s: Word) returns (j: nat)
    ensures j <= |s| && TrimRight(s) == s[..j] && (j > 0 ==> !Space(s[j - 1])) && forall p :: j <= p < |s| ==> Space(s[p])
  {
    if s == [] || !Space(s[|s| - 1]) {
      j := |s|;
      assert s[..j] == s;
    } else {
      j := TrimRightIs(s[..|s| - 1]);
      assert s[..|s| - 1][..j] == s[..j];
    }
  }

  // Between the first and the last rune that is no space the normalised sentence has every
  // rune that is neither ' ' nor '&', in order, and nothing else.
  lemma NormalizedIs(s: Word) returns (i: nat, j: nat)
    ensures i <= j <= |s| && forall p :: 0 <= p < i || j <= p < |s| ==> Space(s[p])
    ensures i < j ==> !Space(s[i]) && !Space(s[j - 1])
    ensures |Normalized(s)| == Kept(s[i..j]) && forall c :: c in Normalized(s) ==> c != ' ' && c != '&'
    ensures forall p :: i <= p < j && s[p] != ' ' && s[p] != '&' ==>
              Kept(s[i..p]) < |Normalized(s)| && Normalized(s)[Kept(s[i..p])] == s[p]
  {
    i := TrimLeftIs(s);
    var d := TrimRightIs(s[i..]);
    j := i + d;
    var t := s[i..j];
    assert s[i..][..d] == t;
    assert forall p :: j <= p < |s| ==> s[p] == s[i..][p - i];
    EraseBothCounts(t);
    forall p | i <= p < j && s[p] != ' ' && s[p] != '&'
      ensures Kept(s[i..p]) < |Normalized(s)| && Normalized(s)[Kept(s[i..p])] == s[p]
    {
      assert t[p - i] == s[p] && t[..p - i] == s[i..p];
      ErasedPlace(t, p - i);
    }
  }

  // What HandleWord overwrites: the runes of the reported words, each the longest dictionary
  // word at its place.
  lemma CoveredByWords(d: Dictionary, n: Word, i: nat)
    ensures Covered(Matches(d, n), i)
       <==> exists m :: m in Matches(d, n) && Longest(d, n, m) && n[m.start..m.end + 1] in d
                        && m.start <= i < m.start + |n[m.start..m.end + 1]|
  {
    Sound(d, n);
    var ms := Matches(d, n);
    if Covered(ms, i) {
      var k :| 0 <= k < |ms| && ms[k].start <= i <= ms[k].end;
      assert ms[k] in ms;
    }
    if m :| m in ms && Longest(d, n, m) && m.start <= i < m.start + |n[m.start..m.end + 1]| {
      var k :| 0 <= k < |ms| && ms[k] == m;
    }
  }

  method NewDFAUtil(wordList: seq<Word>) returns (a: DFAUtil)
    ensures a.Valid() && fresh(a) && fresh(a.nodes.Values)
    ensures a.Words() == NonEmpty(wordList)
  {
    a := new DFAUtil();
    DFAInsertWord(a, wordList);
    assert {} + NonEmpty(wordList) == NonEmpty(wordList);
  }

  // The accepted words are the old ones and every non-empty word of the list.
  method DFAInsertWord(dfa: DFAUtil, wordList: seq<Word>)
    requires dfa.Valid()
    modifies dfa, dfa.nodes.Values
    ensures dfa.Valid() && fresh(dfa.nodes.Values - old(dfa.nodes.Values))
    ensures dfa.Words() == old(dfa.Words()) + NonEmpty(wordList)
  {
    for i := 0 to |wordList|
      invariant dfa.Valid() && fresh(dfa.nodes.Values - old(dfa.nodes.Values))
      invariant dfa.Words() == old(dfa.Words()) + NonEmpty(wordList[..i])
    {
      if |wordList[i]| > 0 {
        dfa.InsertWord(wordList[i]);
      }
      NonEmptyNext(wordList, i);
    }
    assert wordList[..|wordList|] == wordList;
  }

  lemma NonEmptyNext(words: seq<Word>, i: nat)
    requires i < |words|
    ensures NonEmpty(words[..i + 1]) == NonEmpty(words[..i]) + if words[i] == [] then {} else {words[i]}
  {
    assert words[..i + 1] == words[..i] + [words[i]];
  }

  function NonEmpty(words: seq<Word>): set<Word> {
    set w | w in words && w != []
  }

  lemma BeginsMore(d: Dictionary, word: Word, paths: set<Word>)
    requires forall p :: p in paths ==> Begins(d, p) || p <= word
    ensures forall p :: p in paths ==> Begins(d + {word}, p)
  {
    forall p | p in paths ensures Begins(d + {word}, p) {
      if Begins(d, p) && p != [] {
        var w :| w in d && p <= w;
        assert w in d + {word};
      } else {
        assert word in d + {word};
      }
    }
  }

  function Child(p: Word, c: char): Word { p + [c] }

  lemma ChildSplits(p: Word, c: char)
    ensures |Child(p, c)| == |p| + 1 && Child(p, c)[..|p|] == p && Child(p, c)[|p|] == c
  {
  }

  lemma ChildOnce(p: Word, c: char)
    ensures Child(p, c) != [] && forall q, d :: Child(q, d) == Child(p, c) ==> q == p && d == c
    ensures forall d :: Child(Child(p, c), d) != Child(p, c)
  {
    forall q, d ensures Child(q, d) == Child(p, c) ==> q == p && d == c {
      ChildSplits(q, d);
      ChildSplits(p, c);
    }
    forall d ensures Child(Child(p, c), d) != Child(p, c) {
      ChildSplits(Child(p, c), d);
    }
  }
}
