/**
 * The knowledge base behind the assistant: entry texts are split into
 * sentences, sentences are packed greedily into chunks of roughly
 * `chunkSize` characters, every chunk is prefixed with its entry's title,
 * and a query returns the best-scoring chunks. The TF-IDF scores are given
 * as numbers; the vectorizer is not modelled.
 */
module Knowledge {
  import opened Wrappers

  // ---------------------------------------------------------------------
  // Characters and stripping
  // ---------------------------------------------------------------------

  /** Whitespace: space, tab, line feed, carriage return, vertical tab, form feed. */
  predicate IsSpace(c: char)
  {
    c == ' ' || c == '\t' || c == '\n' || c == '\r' || c == '\U{000B}' || c == '\U{000C}'
  }

  /** A sentence terminator. */
  predicate IsTerminal(c: char)
  {
    c == '.' || c == '!' || c == '?'
  }

  ghost predicate AllSpace(s: string)
  {
    forall k :: 0 <= k < |s| ==> IsSpace(s[k])
  }

  /** Neither leading nor trailing whitespace. */
  predicate IsStripped(s: string)
  {
    s == "" || (!IsSpace(s[0]) && !IsSpace(s[|s| - 1]))
  }

  function TrimStart(s: string): string
  {
    if s != [] && IsSpace(s[0]) then TrimStart(s[1..]) else s
  }

  function TrimEnd(s: string): string
  {
    if s != [] && IsSpace(s[|s| - 1]) then TrimEnd(s[..|s| - 1]) else s
  }

  /** `str.strip()`: drop leading and trailing whitespace. */
  function Strip(s: string): string
  {
    TrimEnd(TrimStart(s))
  }

  /** Trimming the front drops a whitespace prefix, and all of it. */
  lemma {:induction false} TrimStartDropsLeadingSpace(s: string)
    ensures |TrimStart(s)| <= |s| && TrimStart(s) == s[|s| - |TrimStart(s)|..]
    ensures TrimStart(s) == "" || !IsSpace(TrimStart(s)[0])
    ensures AllSpace(s[..|s| - |TrimStart(s)|])
  {
    if s != [] && IsSpace(s[0]) {
      TrimStartDropsLeadingSpace(s[1..]);
      var n := |s| - |TrimStart(s)|;
      forall k | 0 <= k < n ensures IsSpace(s[..n][k]) {
        if k > 0 { assert s[..n][k] == s[1..][..n - 1][k - 1]; }
      }
    } else {
      assert s[..0] == [];
    }
  }

  /** Trimming the back drops a whitespace suffix, and all of it. */
  lemma {:induction false} TrimEndDropsTrailingSpace(s: string)
    ensures |TrimEnd(s)| <= |s| && TrimEnd(s) == s[..|TrimEnd(s)|]
    ensures TrimEnd(s) == "" || !IsSpace(TrimEnd(s)[|TrimEnd(s)| - 1])
    ensures AllSpace(s[|TrimEnd(s)|..])
  {
    if s != [] && IsSpace(s[|s| - 1]) {
      var s' := s[..|s| - 1];
      TrimEndDropsTrailingSpace(s');
      var n := |TrimEnd(s)|;
      forall k | 0 <= k < |s| - n ensures IsSpace(s[n..][k]) {
        if n + k < |s| - 1 { assert s[n..][k] == s'[n..][k]; }
      }
    } else {
      assert s[|s|..] == [];
    }
  }

  /** The result of stripping is stripped and no longer; nothing is left exactly when all was whitespace. */
  lemma StripCharacterised(s: string)
    ensures IsStripped(Strip(s))
    ensures |Strip(s)| <= |s|
    ensures Strip(s) == "" <==> AllSpace(s)
  {
    var t := TrimStart(s);
    var r := TrimEnd(t);
    TrimStartDropsLeadingSpace(s);
    TrimEndDropsTrailingSpace(t);
    assert r != "" ==> r[0] == t[0];
    if r == "" {
      assert t[0..] == t;
      assert t == "";
      assert s[..|s|] == s;
    }
    assert t != "" ==> t[0] == s[|s| - |t|];
  }

  // ---------------------------------------------------------------------
  // Sentence split: re.split(r'(?<=[.!?])\s+', text)
  // ---------------------------------------------------------------------

  /** Index just past the whitespace run starting at `i`. */
  function RunEnd(t: string, i: nat): (j: nat)
    requires i <= |t|
    ensures i <= j <= |t|
    ensures forall k :: i <= k < j ==> IsSpace(t[k])
    ensures j < |t| ==> !IsSpace(t[j])
    decreases |t| - i
  {
    if i < |t| && IsSpace(t[i]) then RunEnd(t, i + 1) else i
  }

  /** A whitespace character directly after `.`, `!` or `?`: where the pattern can match. */
  predicate SplitsAt(t: string, i: nat)
    requires i < |t|
  {
    0 < i && IsSpace(t[i]) && IsTerminal(t[i - 1])
  }

  /** No split position strictly inside `p`. */
  ghost predicate NoSplitPoint(p: string)
  {
    forall m :: 0 < m < |p| ==> !(IsSpace(p[m]) && IsTerminal(p[m - 1]))
  }

  /** The pieces of a split together with the whitespace runs removed between them. */
  datatype Split = Split(pieces: seq<string>, seps: seq<string>)

  /** Put the removed runs back between the pieces. */
  function Interleave(pieces: seq<string>, seps: seq<string>): string
    requires |pieces| == |seps| + 1
  {
    if seps == [] then pieces[0] else pieces[0] + seps[0] + Interleave(pieces[1..], seps[1..])
  }

  /**
   * `t` is cut at every maximal whitespace run that follows a terminator,
   * the terminator staying with the piece before the run.
   */
  ghost predicate IsSentenceSplit(t: string, pieces: seq<string>, seps: seq<string>)
  {
    && |pieces| == |seps| + 1
    && Interleave(pieces, seps) == t
    && (forall k :: 0 <= k < |seps| ==> seps[k] != "" && AllSpace(seps[k]))
    && (forall k :: 0 <= k < |seps| ==> pieces[k] != "" && IsTerminal(pieces[k][|pieces[k]| - 1]))
    && (forall k :: 0 < k < |pieces| ==> pieces[k] == "" || !IsSpace(pieces[k][0]))
    && (forall k :: 0 <= k < |pieces| ==> NoSplitPoint(pieces[k]))
  }

  /** Split `t[start..]`, the current piece starting at `start` and the scan being at `i`. */
  function SplitFrom(t: string, start: nat, i: nat): (r: Split)
    requires start <= i <= |t|
    ensures |r.pieces| == |r.seps| + 1
    decreases |t| - i
  {
    if i == |t| then Split([t[start..]], [])
    else if SplitsAt(t, i) then
      var j := RunEnd(t, i);
      var rest := SplitFrom(t, j, j);
      Split([t[start..i]] + rest.pieces, [t[i..j]] + rest.seps)
    else SplitFrom(t, start, i + 1)
  }

  function Sentences(t: string): seq<string>
  {
    SplitFrom(t, 0, 0).pieces
  }

  function Separators(t: string): seq<string>
  {
    SplitFrom(t, 0, 0).seps
  }

  /** A stretch of text the scan passed over without finding a split point holds none. */
  lemma SliceHasNoSplitPoint(t: string, start: nat, i: nat)
    requires start <= i <= |t|
    requires forall k :: start < k < i ==> !SplitsAt(t, k)
    ensures NoSplitPoint(t[start..i])
  {
    var p := t[start..i];
    forall m | 0 < m < |p| ensures !(IsSpace(p[m]) && IsTerminal(p[m - 1])) {
      assert p[m] == t[start + m] && p[m - 1] == t[start + m - 1];
      assert !SplitsAt(t, start + m);
    }
  }

  /** A terminated piece and a whitespace run in front of a split text give a split of the whole. */
  lemma ConsSplit(p: string, sep: string, u: string, pieces: seq<string>, seps: seq<string>)
    requires IsSentenceSplit(u, pieces, seps)
    requires p != "" && IsTerminal(p[|p| - 1]) && NoSplitPoint(p)
    requires sep != "" && AllSpace(sep)
    requires pieces[0] == "" || !IsSpace(pieces[0][0])
    ensures IsSentenceSplit(p + sep + u, [p] + pieces, [sep] + seps)
  {
    var ps, ss := [p] + pieces, [sep] + seps;
    assert ps[1..] == pieces && ss[1..] == seps;
    assert Interleave(ps, ss) == p + sep + u;
    forall k | 0 < k < |ps| ensures ps[k] == "" || !IsSpace(ps[k][0]) {
      assert ps[k] == pieces[k - 1];
    }
    forall k | 0 <= k < |ss| ensures ss[k] != "" && AllSpace(ss[k]) {
      if k > 0 { assert ss[k] == seps[k - 1]; }
    }
    forall k | 0 <= k < |ss| ensures ps[k] != "" && IsTerminal(ps[k][|ps[k]| - 1]) {
      if k > 0 { assert ps[k] == pieces[k - 1]; }
    }
    forall k | 0 <= k < |ps| ensures NoSplitPoint(ps[k]) {
      if k > 0 { assert ps[k] == pieces[k - 1]; }
    }
  }

  /** The split is correct once the remaining text after a whitespace run is split correctly. */
  lemma SplitAtRun(t: string, start: nat, i: nat)
    requires start <= i < |t| && SplitsAt(t, i)
    requires start > 0 ==> IsSpace(t[start - 1])
    requires forall k :: start < k < i ==> !SplitsAt(t, k)
    requires var j := RunEnd(t, i);
      && IsSentenceSplit(t[j..], SplitFrom(t, j, j).pieces, SplitFrom(t, j, j).seps)
      && SplitFrom(t, j, j).pieces[0] <= t[j..]
    ensures IsSentenceSplit(t[start..], SplitFrom(t, start, i).pieces, SplitFrom(t, start, i).seps)
    ensures SplitFrom(t, start, i).pieces[0] <= t[start..]
  {
    var j := RunEnd(t, i);
    var rest := SplitFrom(t, j, j);
    var p, sep := t[start..i], t[i..j];
    assert p != "" && IsTerminal(p[|p| - 1]) && NoSplitPoint(p) by {
      SliceHasNoSplitPoint(t, start, i);
      assert i > start && p[i - start - 1] == t[i - 1];
    }
    assert sep != "" && AllSpace(sep) by {
      assert forall k :: 0 <= k < |sep| ==> sep[k] == t[i + k];
    }
    assert rest.pieces[0] == "" || !IsSpace(rest.pieces[0][0]) by {
      assert rest.pieces[0] != "" ==> rest.pieces[0][0] == t[j];
    }
    ConsSplit(p, sep, t[j..], rest.pieces, rest.seps);
    SliceInThree(t, start, i, j);
  }

  lemma SliceInThree(t: string, a: nat, b: nat, c: nat)
    requires a <= b <= c <= |t|
    ensures t[a..] == t[a..b] + t[b..c] + t[c..]
    ensures t[a..b] <= t[a..]
  {
  }

  /** With no split point left, the rest of the text is the last piece. */
  lemma SplitAtEnd(t: string, start: nat)
    requires start <= |t|
    requires forall k :: start < k < |t| ==> !SplitsAt(t, k)
    ensures IsSentenceSplit(t[start..], SplitFrom(t, start, |t|).pieces, SplitFrom(t, start, |t|).seps)
    ensures SplitFrom(t, start, |t|).pieces[0] <= t[start..]
  {
    SliceHasNoSplitPoint(t, start, |t|);
    assert t[start..|t|] == t[start..];
  }

  lemma {:induction false} SplitFromIsSentenceSplit(t: string, start: nat, i: nat)
    requires start <= i <= |t|
    requires start > 0 ==> IsSpace(t[start - 1])
    requires forall k :: start < k < i ==> !SplitsAt(t, k)
    ensures IsSentenceSplit(t[start..], SplitFrom(t, start, i).pieces, SplitFrom(t, start, i).seps)
    ensures SplitFrom(t, start, i).pieces[0] <= t[start..]
    decreases |t| - i
  {
    if i == |t| {
      SplitAtEnd(t, start);
    } else if SplitsAt(t, i) {
      SplitFromIsSentenceSplit(t, RunEnd(t, i), RunEnd(t, i));
      SplitAtRun(t, start, i);
    } else {
      assert SplitFrom(t, start, i) == SplitFrom(t, start, i + 1);
      SplitFromIsSentenceSplit(t, start, i + 1);
    }
  }

  /** The regular-expression split of a text into sentences, characterised. */
  lemma SentencesSplitText(t: string)
    ensures IsSentenceSplit(t, Sentences(t), Separators(t))
  {
    SplitFromIsSentenceSplit(t, 0, 0);
    assert t[0..] == t;
  }

  // ---------------------------------------------------------------------
  // Greedy packing of sentences into chunks
  // ---------------------------------------------------------------------

  /** Append a sentence to the chunk being built: one separating space unless the chunk is empty. */
  function Join(current: string, sentence: string): string
  {
    if current == "" then sentence else current + " " + sentence
  }

  /** The text the chunk being built holds after the sentences of one group were added to it. */
  function GroupText(g: seq<string>): string
  {
    if g == [] then "" else Join(GroupText(g[..|g| - 1]), g[|g| - 1])
  }

  /** The loop closes the chunk being built instead of appending `sentence` to it. */
  predicate StartsNewChunk(current: string, sentence: string, chunkSize: int)
  {
    |current| + |sentence| > chunkSize && current != ""
  }

  function Flatten(gs: seq<seq<string>>): seq<string>
  {
    if gs == [] then [] else Flatten(gs[..|gs| - 1]) + gs[|gs| - 1]
  }

  /** One step of the packing loop: `s` opens a new group or joins the last one. */
  function AddSentence(gs: seq<seq<string>>, s: string, chunkSize: int): seq<seq<string>>
  {
    if gs == [] then [[s]]
    else if StartsNewChunk(GroupText(gs[|gs| - 1]), s, chunkSize) then gs + [[s]]
    else gs[..|gs| - 1] + [gs[|gs| - 1] + [s]]
  }

  lemma AddSentenceAppends(gs: seq<seq<string>>, s: string, chunkSize: int)
    requires forall k :: 0 <= k < |gs| ==> gs[k] != []
    ensures var next := AddSentence(gs, s, chunkSize);
      && Flatten(next) == Flatten(gs) + [s]
      && |gs| <= |next| <= |gs| + 1 && |next| >= 1
      && forall k :: 0 <= k < |next| ==> next[k] != []
  {
    var next := AddSentence(gs, s, chunkSize);
    if gs == [] {
      assert Flatten(next) == Flatten(next[..0]) + [s];
    } else if StartsNewChunk(GroupText(gs[|gs| - 1]), s, chunkSize) {
      assert next[..|next| - 1] == gs;
    } else {
      var n := |gs| - 1;
      assert next[..|next| - 1] == gs[..n];
      assert gs == gs[..n] + [gs[n]];
      assert Flatten(gs) == Flatten(gs[..n]) + gs[n];
    }
  }

  /** The sentences grouped as the packing loop groups them, one group per chunk it builds. */
  function GroupsOf(ss: seq<string>, chunkSize: int): seq<seq<string>>
  {
    if ss == [] then [] else AddSentence(GroupsOf(ss[..|ss| - 1], chunkSize), ss[|ss| - 1], chunkSize)
  }

  /** The groups are non-empty and hold the sentences in order, each exactly once. */
  lemma {:induction false} GroupsOfPartition(ss: seq<string>, chunkSize: int)
    ensures Flatten(GroupsOf(ss, chunkSize)) == ss
    ensures |GroupsOf(ss, chunkSize)| <= |ss| && (ss != [] ==> |GroupsOf(ss, chunkSize)| >= 1)
    ensures forall k :: 0 <= k < |GroupsOf(ss, chunkSize)| ==> GroupsOf(ss, chunkSize)[k] != []
  {
    if ss != [] {
      var prefix := ss[..|ss| - 1];
      GroupsOfPartition(prefix, chunkSize);
      AddSentenceAppends(GroupsOf(prefix, chunkSize), ss[|ss| - 1], chunkSize);
      assert ss == prefix + [ss[|ss| - 1]];
    }
  }

  /** Every sentence of the group after the first was appended without tripping the size test. */
  ghost predicate GrewByAppending(g: seq<string>, chunkSize: int)
  {
    forall j :: 0 < j < |g| ==> !StartsNewChunk(GroupText(g[..j]), g[j], chunkSize)
  }

  /** Group `k` was opened because its first sentence would have tripped the size test on group `k - 1`. */
  ghost predicate OpenedOnOverflow(gs: seq<seq<string>>, k: nat, chunkSize: int)
    requires 0 < k < |gs|
  {
    gs[k] != [] && StartsNewChunk(GroupText(gs[k - 1]), gs[k][0], chunkSize)
  }

  /** The grouping is the greedy one: a group is closed exactly when the next sentence would overflow it. */
  ghost predicate IsGreedy(gs: seq<seq<string>>, chunkSize: int)
  {
    && (forall k :: 0 <= k < |gs| ==> GrewByAppending(gs[k], chunkSize))
    && (forall k :: 0 < k < |gs| ==> OpenedOnOverflow(gs, k, chunkSize))
  }

  lemma AppendKeepsGrowth(g: seq<string>, s: string, chunkSize: int)
    requires GrewByAppending(g, chunkSize)
    requires !StartsNewChunk(GroupText(g), s, chunkSize)
    ensures GrewByAppending(g + [s], chunkSize)
  {
    var g' := g + [s];
    forall j | 0 < j < |g'| ensures !StartsNewChunk(GroupText(g'[..j]), g'[j], chunkSize) {
      assert g'[..j] == g[..j];
      if j < |g| { assert g'[j] == g[j]; }
    }
  }

  lemma AddSentenceKeepsGreedy(gs: seq<seq<string>>, s: string, chunkSize: int)
    requires IsGreedy(gs, chunkSize)
    requires forall k :: 0 <= k < |gs| ==> gs[k] != []
    ensures IsGreedy(AddSentence(gs, s, chunkSize), chunkSize)
  {
    var next := AddSentence(gs, s, chunkSize);
    if gs == [] {
      assert GrewByAppending([s], chunkSize);
    } else if StartsNewChunk(GroupText(gs[|gs| - 1]), s, chunkSize) {
      assert GrewByAppending([s], chunkSize);
      forall k | 0 <= k < |next| ensures GrewByAppending(next[k], chunkSize) {
        if k < |gs| { assert next[k] == gs[k]; }
      }
      forall k | 0 < k < |next| ensures OpenedOnOverflow(next, k, chunkSize) {
        assert next[k - 1] == gs[k - 1];
        if k < |gs| {
          assert next[k] == gs[k];
          assert OpenedOnOverflow(gs, k, chunkSize);
        }
      }
    } else {
      var n := |gs| - 1;
      AppendKeepsGrowth(gs[n], s, chunkSize);
      forall k | 0 <= k < |next| ensures GrewByAppending(next[k], chunkSize) {
        if k < n { assert next[k] == gs[k]; }
      }
      forall k | 0 < k < |next| ensures OpenedOnOverflow(next, k, chunkSize) {
        assert next[k - 1] == gs[k - 1];
        assert OpenedOnOverflow(gs, k, chunkSize);
        if k < n { assert next[k] == gs[k]; } else { assert next[k][0] == gs[k][0]; }
      }
    }
  }

  lemma {:induction false} GroupsOfIsGreedy(ss: seq<string>, chunkSize: int)
    ensures IsGreedy(GroupsOf(ss, chunkSize), chunkSize)
  {
    if ss != [] {
      GroupsOfIsGreedy(ss[..|ss| - 1], chunkSize);
      GroupsOfPartition(ss[..|ss| - 1], chunkSize);
      AddSentenceKeepsGreedy(GroupsOf(ss[..|ss| - 1], chunkSize), ss[|ss| - 1], chunkSize);
    }
  }

  /** A group whose first sentence is not empty has non-empty text, at most one over the size when it holds several sentences. */
  lemma {:induction false} GroupTextBound(g: seq<string>, chunkSize: int)
    requires g != [] && g[0] != ""
    requires GrewByAppending(g, chunkSize)
    ensures GroupText(g) != ""
    ensures |g| >= 2 ==> |GroupText(g)| <= chunkSize + 1
  {
    if |g| > 1 {
      var prefix := g[..|g| - 1];
      forall j | 0 < j < |prefix| ensures !StartsNewChunk(GroupText(prefix[..j]), prefix[j], chunkSize) {
        assert prefix[..j] == g[..j];
      }
      GroupTextBound(prefix, chunkSize);
      assert !StartsNewChunk(GroupText(prefix), g[|g| - 1], chunkSize);
    } else {
      assert g[..0] == [];
    }
  }

  lemma {:induction false} FlattenHasMembers(gs: seq<seq<string>>, k: nat, j: nat)
    requires k < |gs| && j < |gs[k]|
    ensures gs[k][j] in Flatten(gs)
  {
    if k < |gs| - 1 {
      FlattenHasMembers(gs[..|gs| - 1], k, j);
    }
  }

  /** A sentence the split cut off: non-empty and ending in a terminator. */
  predicate IsClosedSentence(x: string)
  {
    x != "" && IsTerminal(x[|x| - 1])
  }

  lemma ClosedSentenceNotBlank(x: string)
    requires IsClosedSentence(x)
    ensures !AllSpace(x)
  {
    assert !IsSpace(x[|x| - 1]);
  }

  /** When every sentence but the last is closed, so is the first sentence of every multi-sentence group. */
  lemma MultiSentenceGroupsStartClosed(ss: seq<string>, chunkSize: int, k: nat)
    requires forall i :: 0 <= i < |ss| - 1 ==> IsClosedSentence(ss[i])
    requires k < |GroupsOf(ss, chunkSize)| && |GroupsOf(ss, chunkSize)[k]| >= 2
    ensures IsClosedSentence(GroupsOf(ss, chunkSize)[k][0])
  {
    var prefix := ss[..|ss| - 1];
    var s := ss[|ss| - 1];
    var prev := GroupsOf(prefix, chunkSize);
    var gs := GroupsOf(ss, chunkSize);
    GroupsOfPartition(prefix, chunkSize);
    assert gs == AddSentence(prev, s, chunkSize);
    if k < |prev| {
      if StartsNewChunk(GroupText(prev[|prev| - 1]), s, chunkSize) {
        assert gs[k] == prev[k];
      } else if k < |prev| - 1 {
        assert gs[k] == prev[k];
      } else {
        assert gs[k] == prev[k] + [s];
      }
      FlattenHasMembers(prev, k, 0);
      assert prev[k][0] in prefix;
    }
  }

  /** The stripped texts of some groups, in order. */
  function StripTexts(gs: seq<seq<string>>): seq<string>
  {
    seq(|gs|, k requires 0 <= k < |gs| => Strip(GroupText(gs[k])))
  }

  lemma StripTextsAppend(gs: seq<seq<string>>, g: seq<string>)
    ensures StripTexts(gs + [g]) == StripTexts(gs) + [Strip(GroupText(g))]
  {
    var l, r := StripTexts(gs + [g]), StripTexts(gs) + [Strip(GroupText(g))];
    forall k | 0 <= k < |l| ensures l[k] == r[k] {
      if k < |gs| {
        assert (gs + [g])[k] == gs[k];
      }
    }
  }

  /** The closed chunks, then the last one unless blank; the text itself when that leaves nothing. */
  function FinishChunks(closed: seq<string>, last: string, text: string): (chunks: seq<string>)
    ensures |chunks| >= 1
  {
    var all := if last != "" then closed + [last] else closed;
    if all == [] then [text] else all
  }

  /**
   * The chunks the packing loop returns: the stripped text of every group it
   * closed, then that of the last group unless blank; the text itself if that
   * leaves nothing.
   */
  function ChunksOf(text: string, chunkSize: int): (chunks: seq<string>)
    ensures |chunks| >= 1
  {
    var gs := GroupsOf(Sentences(text), chunkSize);
    // a text always has a sentence, so there is always a group
    if gs == [] then [text] else FinishChunks(StripTexts(gs[..|gs| - 1]), Strip(GroupText(gs[|gs| - 1])), text)
  }

  lemma ChunksOfGroups(text: string, chunkSize: int, done: seq<seq<string>>, group: seq<string>)
    requires done + [group] == GroupsOf(Sentences(text), chunkSize)
    ensures ChunksOf(text, chunkSize) == FinishChunks(StripTexts(done), Strip(GroupText(group)), text)
  {
    var gs := done + [group];
    assert gs[..|gs| - 1] == done && gs[|gs| - 1] == group;
  }

  /** Sentence `i` more: it opens a new group or extends the last one, as the size test says. */
  lemma GroupsOfStep(ss: seq<string>, i: nat, chunkSize: int, done: seq<seq<string>>, group: seq<string>)
    requires i < |ss|
    requires i == 0 ==> done == [] && group == []
    requires i > 0 ==> done + [group] == GroupsOf(ss[..i], chunkSize)
    ensures StartsNewChunk(GroupText(group), ss[i], chunkSize) ==> done + [group] + [[ss[i]]] == GroupsOf(ss[..i + 1], chunkSize)
    ensures !StartsNewChunk(GroupText(group), ss[i], chunkSize) ==> done + [group + [ss[i]]] == GroupsOf(ss[..i + 1], chunkSize)
  {
    assert ss[..i + 1][..i] == ss[..i];
    var prev := GroupsOf(ss[..i], chunkSize);
    assert GroupsOf(ss[..i + 1], chunkSize) == AddSentence(prev, ss[i], chunkSize);
    if i == 0 {
      assert ss[..0] == [];
      assert prev == [];
      assert group + [ss[i]] == [ss[i]];
    } else {
      assert prev[|prev| - 1] == group && prev[..|prev| - 1] == done;
    }
  }

  /** `_chunk_text`: split `text` into sentences and pack them greedily into chunks. */
  method ChunkText(text: string, chunkSize: int) returns (chunks: seq<string>)
    ensures chunks == ChunksOf(text, chunkSize)
  {
    var sentences := Sentences(text);
    chunks := [];
    var current := "";
    ghost var done: seq<seq<string>> := [];
    ghost var group: seq<string> := [];
    for i := 0 to |sentences|
      invariant i == 0 ==> done == [] && group == []
      invariant i > 0 ==> done + [group] == GroupsOf(sentences[..i], chunkSize)
      invariant current == GroupText(group)
      invariant chunks == StripTexts(done)
    {
      var sentence := sentences[i];
      if |current| + |sentence| > chunkSize && current != "" {
        assert && done + [group] + [[sentence]] == GroupsOf(sentences[..i + 1], chunkSize)
               && chunks + [Strip(current)] == StripTexts(done + [group])
               && sentence == GroupText([sentence]) by {
          GroupsOfStep(sentences, i, chunkSize, done, group);
          StripTextsAppend(done, group);
          assert GroupText([sentence]) == Join(GroupText([]), sentence);
        }
        chunks := chunks + [Strip(current)];
        done := done + [group];
        group := [sentence];
        current := sentence;
      } else {
        assert && done + [group + [sentence]] == GroupsOf(sentences[..i + 1], chunkSize)
               && Join(current, sentence) == GroupText(group + [sentence]) by {
          GroupsOfStep(sentences, i, chunkSize, done, group);
          assert (group + [sentence])[..|group|] == group;
        }
        current := if current != "" then current + " " + sentence else sentence;
        group := group + [sentence];
      }
    }
    assert sentences[..|sentences|] == sentences;
    ChunksOfGroups(text, chunkSize, done, group);
    if Strip(current) != "" {
      chunks := chunks + [Strip(current)];
    }
    if chunks == [] {
      chunks := [text];
    }
  }

  lemma {:induction false} BlankGroupHasBlankSentences(g: seq<string>)
    ensures AllSpace(GroupText(g)) ==> forall i :: 0 <= i < |g| ==> AllSpace(g[i])
  {
    if g != [] && AllSpace(GroupText(g)) {
      var prefix := g[..|g| - 1];
      var x := g[|g| - 1];
      var pt := GroupText(prefix);
      if pt == "" {
        assert GroupText(g) == x;
      } else {
        assert GroupText(g) == pt + " " + x;
        assert forall k :: 0 <= k < |pt| ==> pt[k] == GroupText(g)[k];
        assert forall k :: 0 <= k < |x| ==> x[k] == GroupText(g)[|pt| + 1 + k];
      }
      BlankGroupHasBlankSentences(prefix);
      forall i | 0 <= i < |g| ensures AllSpace(g[i]) {
        if i < |g| - 1 { assert g[i] == prefix[i]; }
      }
    }
  }

  lemma {:induction false} BlankInterleave(pieces: seq<string>, seps: seq<string>)
    requires |pieces| == |seps| + 1
    requires forall k :: 0 <= k < |pieces| ==> AllSpace(pieces[k])
    requires forall k :: 0 <= k < |seps| ==> AllSpace(seps[k])
    ensures AllSpace(Interleave(pieces, seps))
  {
    if seps != [] {
      BlankInterleave(pieces[1..], seps[1..]);
      var a, b, c := pieces[0], seps[0], Interleave(pieces[1..], seps[1..]);
      assert Interleave(pieces, seps) == a + b + c;
      forall k | 0 <= k < |a + b + c| ensures IsSpace((a + b + c)[k]) {
        if k < |a| { assert (a + b + c)[k] == a[k]; }
        else if k < |a| + |b| { assert (a + b + c)[k] == b[k - |a|]; }
        else { assert (a + b + c)[k] == c[k - |a| - |b|]; }
      }
    }
  }

  /**
   * Every chunk is stripped, except in the fallback, which returns the text
   * itself and happens only for a text that is entirely whitespace.
   */
  lemma ChunksAreStripped(text: string, chunkSize: int)
    ensures var chunks := ChunksOf(text, chunkSize);
      (forall k :: 0 <= k < |chunks| ==> IsStripped(chunks[k])) || (chunks == [text] && AllSpace(text))
  {
    SentencesSplitText(text);
    var ss := Sentences(text);
    var gs := GroupsOf(ss, chunkSize);
    GroupsOfPartition(ss, chunkSize);
    var closed := StripTexts(gs[..|gs| - 1]);
    var last := Strip(GroupText(gs[|gs| - 1]));
    forall k | 0 <= k < |closed| ensures IsStripped(closed[k]) {
      StripCharacterised(GroupText(gs[k]));
    }
    StripCharacterised(GroupText(gs[|gs| - 1]));
    if closed == [] && last == "" {
      assert |gs| == 1;
      assert Flatten(gs) == Flatten(gs[..0]) + gs[0];
      BlankGroupHasBlankSentences(gs[0]);
      BlankInterleave(ss, Separators(text));
    }
  }

  /** Chunk `k` is the stripped text of group `k`, for every closed group and for a last group that is not blank. */
  lemma ChunkOfGroup(text: string, chunkSize: int, k: nat)
    requires k < |GroupsOf(Sentences(text), chunkSize)|
    requires k == |GroupsOf(Sentences(text), chunkSize)| - 1 ==>
      Strip(GroupText(GroupsOf(Sentences(text), chunkSize)[k])) != ""
    ensures k < |ChunksOf(text, chunkSize)|
    ensures ChunksOf(text, chunkSize)[k] == Strip(GroupText(GroupsOf(Sentences(text), chunkSize)[k]))
  {
    var gs := GroupsOf(Sentences(text), chunkSize);
    var n := |gs| - 1;
    var closed := StripTexts(gs[..n]);
    var last := Strip(GroupText(gs[n]));
    assert ChunksOf(text, chunkSize) == FinishChunks(closed, last, text);
    FinishChunksAt(closed, last, text, k);
    if k < n {
      assert gs[..n][k] == gs[k];
    }
  }

  lemma FinishChunksAt(closed: seq<string>, last: string, text: string, k: nat)
    requires k < |closed| || (k == |closed| && last != "")
    ensures k < |FinishChunks(closed, last, text)|
    ensures FinishChunks(closed, last, text)[k] == if k < |closed| then closed[k] else last
  {
  }

  /**
   * Chunk `k`, when packed from two or more sentences, is at most
   * `chunkSize + 1` characters long: the size test ignores the joining space.
   */
  lemma MultiSentenceChunkBound(text: string, chunkSize: int, k: nat)
    requires k < |GroupsOf(Sentences(text), chunkSize)|
    requires |GroupsOf(Sentences(text), chunkSize)[k]| >= 2
    ensures k < |ChunksOf(text, chunkSize)|
    ensures ChunksOf(text, chunkSize)[k] == Strip(GroupText(GroupsOf(Sentences(text), chunkSize)[k]))
    ensures |ChunksOf(text, chunkSize)[k]| <= chunkSize + 1
  {
    var ss := Sentences(text);
    SentencesSplitText(text);
    assert forall i :: 0 <= i < |ss| - 1 ==> IsClosedSentence(ss[i]);
    MultiSentenceGroupsStartClosed(ss, chunkSize, k);
    GroupsOfIsGreedy(ss, chunkSize);
    var g := GroupsOf(ss, chunkSize)[k];
    GroupTextBound(g, chunkSize);
    StripCharacterised(GroupText(g));
    ClosedSentenceNotBlank(g[0]);
    BlankGroupHasBlankSentences(g);
    ChunkOfGroup(text, chunkSize, k);
  }

  // ---------------------------------------------------------------------
  // The index and the search
  // ---------------------------------------------------------------------

  /** A knowledge entry as the database returns it. */
  datatype Entry = Entry(title: string, content: string)

  /** The indexed chunks of one entry: each chunk of its content behind the title. */
  function EntryChunks(e: Entry, chunkSize: int): (r: seq<string>)
    ensures |r| >= 1
  {
    Titled(e.title, ChunksOf(e.content, chunkSize))
  }

  /** Every piece behind the title and a colon. */
  function Titled(title: string, pieces: seq<string>): (r: seq<string>)
    ensures |r| == |pieces|
  {
    seq(|pieces|, k requires 0 <= k < |pieces| => title + ": " + pieces[k])
  }

  /** The chunk list `_build_index` produces: the entries' chunks, entry after entry. */
  function IndexChunks(entries: seq<Entry>, chunkSize: int): seq<string>
  {
    if entries == [] then []
    else IndexChunks(entries[..|entries| - 1], chunkSize) + EntryChunks(entries[|entries| - 1], chunkSize)
  }

  /** Every entry yields at least one chunk, so the index is empty exactly when there are no entries. */
  lemma {:induction false} IndexCoversEntries(entries: seq<Entry>, chunkSize: int)
    ensures |IndexChunks(entries, chunkSize)| >= |entries|
    ensures IndexChunks(entries, chunkSize) == [] <==> entries == []
  {
    if entries != [] {
      IndexCoversEntries(entries[..|entries| - 1], chunkSize);
    }
  }

  lemma TakeOneMore(s: seq<string>, j: nat)
    requires j < |s|
    ensures s[..j + 1] == s[..j] + [s[j]]
  {
  }

  /** Indexing one entry more appends its chunks; all entries give the whole index. */
  lemma IndexChunksStep(entries: seq<Entry>, i: nat, chunkSize: int)
    requires i <= |entries|
    ensures i < |entries| ==>
      IndexChunks(entries[..i + 1], chunkSize) == IndexChunks(entries[..i], chunkSize) + EntryChunks(entries[i], chunkSize)
    ensures IndexChunks(entries[..|entries|], chunkSize) == IndexChunks(entries, chunkSize)
  {
    assert entries[..|entries|] == entries;
    if i < |entries| {
      assert entries[..i + 1][..i] == entries[..i];
    }
  }

  /** Minimum score a chunk needs to be returned. */
  const Threshold: real := 0.05

  /** `order` is an `argsort` of `scores`: every index once, scores ascending; ties in any order. */
  ghost predicate IsArgsort(order: seq<nat>, scores: seq<real>)
  {
    && |order| == |scores|
    && (forall i :: 0 <= i < |order| ==> order[i] < |scores|)
    && (forall i :: 0 <= i < |scores| ==> i in order)
    && (forall i, j :: 0 <= i < j < |order| ==> order[i] != order[j])
    && (forall i, j :: 0 <= i <= j < |order| ==> scores[order[i]] <= scores[order[j]])
  }

  /** Start of Python's slice `a[-k:]` on a sequence of length `n`. */
  function TailStart(n: nat, k: int): (s: nat)
    ensures s <= n
    ensures k > 0 ==> n - s == if k < n then k else n
    ensures k == 0 ==> s == 0
  {
    if k > 0 then (if k >= n then 0 else n - k)
    else if -k >= n then n
    else -k
  }

  function Reverse(s: seq<nat>): (r: seq<nat>)
    ensures |r| == |s|
    ensures forall k :: 0 <= k < |s| ==> r[k] == s[|s| - 1 - k]
  {
    if s == [] then [] else Reverse(s[1..]) + [s[0]]
  }

  /** The indices of `s`, in order, whose score is above the threshold. */
  function AboveThreshold(s: seq<nat>, scores: seq<real>): (r: seq<nat>)
    requires forall k :: 0 <= k < |s| ==> s[k] < |scores|
    ensures |r| <= |s|
    ensures forall k :: 0 <= k < |r| ==> r[k] in s && r[k] < |scores| && scores[r[k]] > Threshold
  {
    if s == [] then []
    else
      var rest := AboveThreshold(s[1..], scores);
      if scores[s[0]] > Threshold then [s[0]] + rest else rest
  }

  lemma {:induction false} AboveThresholdKeepsAll(s: seq<nat>, scores: seq<real>, x: nat)
    requires forall k :: 0 <= k < |s| ==> s[k] < |scores|
    requires x in s && x < |scores| && scores[x] > Threshold
    ensures x in AboveThreshold(s, scores)
  {
    if s[0] != x {
      assert x in s[1..];
      AboveThresholdKeepsAll(s[1..], scores, x);
    }
  }

  /** Distinct indices, best score first. */
  ghost predicate DistinctDescending(s: seq<nat>, scores: seq<real>)
    requires forall k :: 0 <= k < |s| ==> s[k] < |scores|
  {
    forall a, b :: 0 <= a < b < |s| ==> s[a] != s[b] && scores[s[a]] >= scores[s[b]]
  }

  lemma TailDistinctDescending(s: seq<nat>, scores: seq<real>)
    requires s != [] && forall k :: 0 <= k < |s| ==> s[k] < |scores|
    requires DistinctDescending(s, scores)
    ensures DistinctDescending(s[1..], scores)
  {
    var tail := s[1..];
    forall a, b | 0 <= a < b < |tail| ensures tail[a] != tail[b] && scores[tail[a]] >= scores[tail[b]] {
      assert tail[a] == s[a + 1] && tail[b] == s[b + 1];
    }
  }

  lemma HeadBeatsTail(s: seq<nat>, scores: seq<real>, x: nat)
    requires s != [] && forall k :: 0 <= k < |s| ==> s[k] < |scores|
    requires DistinctDescending(s, scores)
    requires x in s[1..]
    ensures x != s[0] && x < |scores| && scores[s[0]] >= scores[x]
  {
    var j :| 0 <= j < |s[1..]| && s[1..][j] == x;
    assert s[j + 1] == x;
  }

  lemma {:induction false} AboveThresholdKeepsOrder(s: seq<nat>, scores: seq<real>)
    requires forall k :: 0 <= k < |s| ==> s[k] < |scores|
    requires DistinctDescending(s, scores)
    ensures DistinctDescending(AboveThreshold(s, scores), scores)
  {
    if s != [] {
      TailDistinctDescending(s, scores);
      AboveThresholdKeepsOrder(s[1..], scores);
      var rest := AboveThreshold(s[1..], scores);
      if scores[s[0]] > Threshold {
        forall k | 0 <= k < |rest| ensures rest[k] != s[0] && scores[s[0]] >= scores[rest[k]] {
          HeadBeatsTail(s, scores, rest[k]);
        }
        ConsDescending(s[0], rest, scores);
      }
    }
  }

  lemma ConsDescending(x: nat, rest: seq<nat>, scores: seq<real>)
    requires x < |scores| && forall k :: 0 <= k < |rest| ==> rest[k] < |scores|
    requires DistinctDescending(rest, scores)
    requires forall k :: 0 <= k < |rest| ==> rest[k] != x && scores[x] >= scores[rest[k]]
    ensures DistinctDescending([x] + rest, scores)
  {
    var r := [x] + rest;
    forall a, b | 0 <= a < b < |r| ensures r[a] != r[b] && scores[r[a]] >= scores[r[b]] {
      assert r[b] == rest[b - 1];
      if a > 0 {
        assert r[a] == rest[a - 1];
      }
    }
  }

  /** `argsort(scores)[-top_k:][::-1]`, keeping the indices that score above the threshold. */
  function Selected(scores: seq<real>, order: seq<nat>, topK: int): (sel: seq<nat>)
    requires IsArgsort(order, scores)
    ensures forall k :: 0 <= k < |sel| ==> sel[k] < |scores| && scores[sel[k]] > Threshold
    ensures topK >= 1 ==> |sel| <= topK
  {
    AboveThreshold(Reverse(order[TailStart(|order|, topK)..]), scores)
  }

  /** The selection is best first and repeats no chunk. */
  lemma SelectedIsDescending(scores: seq<real>, order: seq<nat>, topK: int)
    requires IsArgsort(order, scores)
    ensures DistinctDescending(Selected(scores, order, topK), scores)
  {
    var start := TailStart(|order|, topK);
    var tail := order[start..];
    var rev := Reverse(tail);
    forall a, b | 0 <= a < b < |rev| ensures rev[a] != rev[b] && scores[rev[a]] >= scores[rev[b]] {
      assert rev[a] == order[start + |tail| - 1 - a] && rev[b] == order[start + |tail| - 1 - b];
    }
    AboveThresholdKeepsOrder(rev, scores);
  }

  /** Every chunk ranked inside the kept tail of the ranking and scoring above the threshold is selected. */
  lemma TailMemberSelected(scores: seq<real>, order: seq<nat>, topK: int, p: nat)
    requires IsArgsort(order, scores)
    requires TailStart(|order|, topK) <= p < |order| && scores[order[p]] > Threshold
    ensures order[p] in Selected(scores, order, topK)
  {
    var start := TailStart(|order|, topK);
    var tail := order[start..];
    var rev := Reverse(tail);
    assert rev[|tail| - 1 - (p - start)] == order[p];
    AboveThresholdKeepsAll(rev, scores, order[p]);
  }

  /** A chunk above the threshold that was left out scores no higher than any selected chunk. */
  lemma LeftOutScoresNoHigher(scores: seq<real>, order: seq<nat>, topK: int, i: nat, k: nat)
    requires IsArgsort(order, scores)
    requires i < |scores| && scores[i] > Threshold && i !in Selected(scores, order, topK)
    requires k < |Selected(scores, order, topK)|
    ensures scores[i] <= scores[Selected(scores, order, topK)[k]]
  {
    var start := TailStart(|order|, topK);
    var tail := order[start..];
    var rev := Reverse(tail);
    var sel := Selected(scores, order, topK);
    assert sel[k] in rev;
    var q :| 0 <= q < |rev| && rev[q] == sel[k];
    assert sel[k] == order[start + |tail| - 1 - q];
    assert i in order;
    var p :| 0 <= p < |order| && order[p] == i;
    if p >= start {
      TailMemberSelected(scores, order, topK, p);
    }
  }

  /** With `topK` 0 or at least the number of chunks, every chunk above the threshold is selected. */
  lemma WholeRankingSelectsAll(scores: seq<real>, order: seq<nat>, topK: int, i: nat)
    requires IsArgsort(order, scores)
    requires topK == 0 || topK >= |scores|
    requires i < |scores| && scores[i] > Threshold
    ensures i in Selected(scores, order, topK)
  {
    assert i in order;
    var p :| 0 <= p < |order| && order[p] == i;
    TailMemberSelected(scores, order, topK, p);
  }

  class KnowledgeBase {
    /** CHUNK_SIZE */
    const chunkSize: int
    var chunks: seq<string>
    /** The fitted TF-IDF matrix, stood for by the chunk list it was fitted on; None when not built. */
    var matrix: Option<seq<string>>

    /** The matrix exists exactly when there are chunks, and was fitted on them. */
    ghost predicate Valid()
      reads this
    {
      matrix == if chunks == [] then None else Some(chunks)
    }

    /** `__init__`: an empty index, then `_build_index`. */
    constructor (entries: seq<Entry>, chunkSize: int)
      ensures Valid()
      ensures this.chunkSize == chunkSize
      ensures chunks == IndexChunks(entries, chunkSize)
      ensures matrix.None? <==> entries == []
    {
      this.chunkSize := chunkSize;
      chunks := [];
      matrix := None;
      new;
      BuildIndex(entries);
      IndexCoversEntries(entries, chunkSize);
    }

    /**
     * `_build_index`: reset the chunk list and refill it from the entries in
     * order; fit the matrix when there are chunks, else drop it.
     */
    method BuildIndex(entries: seq<Entry>)
      modifies this
      ensures Valid()
      ensures chunks == IndexChunks(entries, chunkSize)
    {
      chunks := [];
      for i := 0 to |entries|
        invariant chunks == IndexChunks(entries[..i], chunkSize)
      {
        AppendEntryChunks(entries[i]);
        IndexChunksStep(entries, i, chunkSize);
      }
      IndexChunksStep(entries, |entries|, chunkSize);
      assert chunks == IndexChunks(entries, chunkSize);
      if chunks != [] {
        matrix := Some(chunks);
      } else {
        matrix := None;
      }
    }

    /** The inner loop of `_build_index`: append each chunk of one entry's content behind the entry's title. */
    method AppendEntryChunks(e: Entry)
      modifies this
      ensures chunks == old(chunks) + EntryChunks(e, chunkSize)
      ensures matrix == old(matrix)
    {
      var pieces := ChunkText(e.content, chunkSize);
      ghost var added := Titled(e.title, pieces);
      for j := 0 to |pieces|
        invariant chunks == old(chunks) + added[..j]
        invariant matrix == old(matrix)
      {
        TakeOneMore(added, j);
        chunks := chunks + [e.title + ": " + pieces[j]];
      }
      assert added[..|pieces|] == added;
    }

    /** `rebuild`: the index after the entries changed. */
    method Rebuild(entries: seq<Entry>)
      modifies this
      ensures Valid()
      ensures chunks == IndexChunks(entries, chunkSize)
      ensures matrix.None? <==> entries == []
    {
      BuildIndex(entries);
      IndexCoversEntries(entries, chunkSize);
    }

    /**
     * `search`: `scores` are the query's similarities to the chunks and
     * `order` their argsort; the result is the selected chunks, best first.
     */
    function Search(scores: seq<real>, order: seq<nat>, topK: int): (r: seq<string>)
      reads this
      requires chunks != [] && matrix.Some? ==> |scores| == |chunks| && IsArgsort(order, scores)
      ensures chunks == [] || matrix.None? ==> r == []
      ensures chunks != [] && matrix.Some? ==>
        var sel := Selected(scores, order, topK);
        |r| == |sel| && forall k :: 0 <= k < |r| ==> r[k] == chunks[sel[k]]
      ensures forall k :: 0 <= k < |r| ==> r[k] in chunks
      ensures topK >= 1 ==> |r| <= topK
    {
      if chunks == [] || matrix.None? then []
      else
        var sel := Selected(scores, order, topK);
        var cs := chunks;
        seq(|sel|, k requires 0 <= k < |sel| => cs[sel[k]])
    }
  }
}
