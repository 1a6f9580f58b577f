/**
 * Greedy word wrapping for the Linux desktop (internal/desktop/linux_info_overlay.go, `linuxWrapForUI`).
 */
module WordWrap {
  import opened Unicode

  // ----- White space and words -----

  /** The text without its white space. */
  function Bare(s: string): string
  {
    if s == "" then "" else if Space(s[0]) then Bare(s[1..]) else [s[0]] + Bare(s[1..])
  }

  function Concat(lines: seq<string>): string
  {
    if lines == [] then "" else Concat(lines[..|lines| - 1]) + lines[|lines| - 1]
  }

  /** A word: not empty and without white space. */
  predicate Word(w: string)
  {
    w != "" && forall ch :: ch in w ==> !Space(ch)
  }

  predicate Words(ws: seq<string>)
  {
    forall i :: 0 <= i < |ws| ==> Word(ws[i])
  }

  function WordLength(s: string): (n: nat)
    ensures n <= |s| && (forall i :: 0 <= i < n ==> !Space(s[i])) && (n < |s| ==> Space(s[n]))
  {
    if s == "" || Space(s[0]) then 0 else 1 + WordLength(s[1..])
  }

  /** `strings.Fields` */
  function Fields(s: string): (ws: seq<string>)
    ensures Words(ws)
    decreases |s|
  {
    if s == "" then []
    else if Space(s[0]) then Fields(s[1..])
    else [s[..WordLength(s)]] + Fields(s[WordLength(s)..])
  }

  lemma {:induction false} BareConcat(a: string, b: string)
    ensures Bare(a + b) == Bare(a) + Bare(b)
  {
    if a == "" {
      assert a + b == b;
    } else {
      BareConcat(a[1..], b);
      assert (a + b)[1..] == a[1..] + b && (a + b)[0] == a[0];
      var first, x, y := [a[0]], Bare(a[1..]), Bare(b);
      assert first + x + y == first + (x + y);
    }
  }

  lemma {:induction false} BareWord(w: string)
    requires forall ch :: ch in w ==> !Space(ch)
    ensures Bare(w) == w
  {
    if w != "" {
      BareWord(w[1..]);
      assert w == [w[0]] + w[1..];
    }
  }

  lemma ConcatMore(lines: seq<string>, line: string)
    ensures Concat(lines + [line]) == Concat(lines) + line
  {
    assert (lines + [line])[..|lines|] == lines;
  }

  lemma {:induction false} ConcatFirst(line: string, lines: seq<string>)
    ensures Concat([line] + lines) == line + Concat(lines)
  {
    if lines == [] {
      assert [line] + lines == [line];
      assert Concat([line]) == Concat([]) + line;
    } else {
      var n := |lines| - 1;
      assert ([line] + lines)[..n + 1] == [line] + lines[..n];
      ConcatFirst(line, lines[..n]);
    }
  }

  /** The words are the text without its white space. */
  lemma {:induction false} FieldsKeepText(s: string)
    ensures Concat(Fields(s)) == Bare(s)
    decreases |s|
  {
    if s != "" {
      if Space(s[0]) {
        FieldsKeepText(s[1..]);
      } else {
        var n := WordLength(s);
        FieldsKeepText(s[n..]);
        ConcatFirst(s[..n], Fields(s[n..]));
        BareWord(s[..n]);
        BareConcat(s[..n], s[n..]);
        assert s == s[..n] + s[n..];
      }
    }
  }

  /** Without white space every other rune stays as often as it was. */
  lemma {:induction false} BareKeepsRunes(s: string, ch: char)
    ensures multiset(Bare(s))[ch] == if Space(ch) then 0 else multiset(s)[ch]
  {
    if s != "" {
      assert s == [s[0]] + s[1..];
      BareKeepsRunes(s[1..], ch);
    }
  }

  // ----- Pieces of over-long words -----

  /** A word in pieces of `max` runes, of which only the last may be shorter. */
  function Pieces(w: string, max: nat): seq<string>
    requires max > 0
    decreases |w|
  {
    if |w| <= max then [w] else [w[..max]] + Pieces(w[max..], max)
  }

  function AllPieces(words: seq<string>, max: nat): seq<string>
    requires max > 0
  {
    if words == [] then [] else AllPieces(words[..|words| - 1], max) + Pieces(words[|words| - 1], max)
  }

  lemma {:induction false} PiecesMakeWord(w: string, max: nat)
    requires max > 0 && Word(w)
    ensures Concat(Pieces(w, max)) == w && Words(Pieces(w, max))
    ensures forall i :: 0 <= i < |Pieces(w, max)| - 1 ==> |Pieces(w, max)[i]| == max
    ensures 0 < |Pieces(w, max)[|Pieces(w, max)| - 1]| <= max
    decreases |w|
  {
    if |w| <= max {
      assert Concat([w]) == Concat([]) + w;
    } else {
      HalvesAreWords(w, max);
      PiecesMakeWord(w[max..], max);
      FirstPiece(w, max);
    }
  }

  lemma FirstPiece(w: string, max: nat)
    requires |w| > max > 0
    ensures Concat(Pieces(w, max)) == w[..max] + Concat(Pieces(w[max..], max)) && w == w[..max] + w[max..]
  {
    ConcatFirst(w[..max], Pieces(w[max..], max));
  }

  /** Words that fit are their own pieces. */
  lemma {:induction false} PiecesOfShort(words: seq<string>, max: nat)
    requires max > 0 && NoLongWord(words, max)
    ensures AllPieces(words, max) == words
  {
    if words != [] {
      var n := |words| - 1;
      PiecesOfShort(words[..n], max);
      assert words == words[..n] + [words[n]];
    }
  }

  lemma {:induction false} ConcatBoth(a: seq<string>, b: seq<string>)
    ensures Concat(a + b) == Concat(a) + Concat(b)
    decreases |b|
  {
    if b == [] {
      assert a + b == a;
    } else {
      var n := |b| - 1;
      assert (a + b)[..|a| + n] == a + b[..n];
      ConcatBoth(a, b[..n]);
    }
  }

  lemma {:induction false} AllPiecesMakeWords(words: seq<string>, max: nat)
    requires max > 0 && Words(words)
    ensures Concat(AllPieces(words, max)) == Concat(words) && Words(AllPieces(words, max))
  {
    if words != [] {
      var n := |words| - 1;
      AllPiecesMakeWords(words[..n], max);
      PiecesMakeWord(words[n], max);
      ConcatBoth(AllPieces(words[..n], max), Pieces(words[n], max));
    }
  }

  // ----- Arrangements of whole words -----

  /** The words of a line, separated by single spaces. */
  function Join(group: seq<string>): string
    requires group != []
  {
    if |group| == 1 then group[0] else Join(group[..|group| - 1]) + " " + group[|group| - 1]
  }

  /** The words of a line can be told apart again, and nothing but one space stands between them. */
  lemma {:induction false} JoinSeparates(group: seq<string>)
    requires group != [] && Words(group)
    ensures Fields(Join(group)) == group && |Join(group)| == |Concat(group)| + |group| - 1
    decreases group
  {
    var n := |group| - 1;
    var last := group[n];
    FieldsOfWord(last);
    if n == 0 {
      assert group == [last] && Concat([last]) == Concat([]) + last;
    } else {
      JoinSeparates(group[..n]);
      FieldsAppend(Join(group[..n]), last);
      assert group == group[..n] + [last];
    }
  }

  lemma {:induction false} WordLengthIs(w: string)
    requires forall ch :: ch in w ==> !Space(ch)
    ensures WordLength(w) == |w|
  {
    if w != "" { WordLengthIs(w[1..]); }
  }

  lemma FieldsOfWord(w: string)
    requires Word(w)
    ensures WordLength(w) == |w| && Fields(w) == [w]
  {
    WordLengthIs(w);
    assert w[..|w|] == w && Fields(w[|w|..]) == [];
  }

  lemma {:induction false} FieldsAppend(a: string, w: string)
    requires Word(w)
    ensures Fields(a + " " + w) == Fields(a) + [w]
    decreases |a|
  {
    var all := a + " " + w;
    if a == "" {
      assert all[1..] == w && all[0] == ' ';
      FieldsOfWord(w);
    } else if Space(a[0]) {
      assert all[1..] == a[1..] + " " + w;
      FieldsAppend(a[1..], w);
    } else {
      var n := WordLength(a);
      WordLengthAppend(a, " " + w);
      assert a + (" " + w) == all;
      assert all[..n] == a[..n] && all[n..] == a[n..] + " " + w;
      FieldsAppend(a[n..], w);
      assert [a[..n]] + (Fields(a[n..]) + [w]) == [a[..n]] + Fields(a[n..]) + [w];
    }
  }

  lemma {:induction false} WordLengthAppend(a: string, b: string)
    requires b != "" && Space(b[0])
    ensures WordLength(a + b) == WordLength(a)
  {
    if a == "" {
      assert a + b == b;
    } else if !Space(a[0]) {
      assert (a + b)[1..] == a[1..] + b;
      WordLengthAppend(a[1..], b);
    }
  }

  function Flatten(groups: seq<seq<string>>): seq<string>
  {
    if groups == [] then [] else Flatten(groups[..|groups| - 1]) + groups[|groups| - 1]
  }

  /** The words in order on lines of at most `max` runes. */
  predicate Arranges(groups: seq<seq<string>>, words: seq<string>, max: nat)
  {
    Flatten(groups) == words && forall i :: 0 <= i < |groups| ==> groups[i] != [] && |Join(groups[i])| <= max
  }

  function Lines(groups: seq<seq<string>>): seq<string>
    requires forall i :: 0 <= i < |groups| ==> groups[i] != []
  {
    seq(|groups|, i requires 0 <= i < |groups| => Join(groups[i]))
  }

  /** No arrangement of the words has fewer lines, and none with as many has a shorter last line. */
  ghost predicate Ahead(count: nat, last: nat, words: seq<string>, max: nat)
  {
    forall groups :: Arranges(groups, words, max) && groups != [] ==>
      count < |groups| || (count == |groups| && last <= |Join(groups[|groups| - 1])|)
  }

  /** An arrangement of one more word continues an arrangement of the others: on the same last line, or on a new one. */
  lemma DropLastWord(groups: seq<seq<string>>, words: seq<string>, w: string, max: nat)
    requires Arranges(groups, words + [w], max) && groups != [] && words != []
    ensures var n := |groups| - 1;
            if groups[n] == [w] then Arranges(groups[..n], words, max) && n > 0
            else |groups[n]| > 1 && Arranges(groups[n := groups[n][..|groups[n]| - 1]], words, max) &&
                 |Join(groups[n])| == |Join(groups[n][..|groups[n]| - 1])| + 1 + |w|
  {
    var n := |groups| - 1;
    var all := words + [w];
    var last := groups[n];
    assert all == Flatten(groups[..n]) + last;
    assert last[|last| - 1] == all[|all| - 1] == w;
    if |last| == 1 {
      assert last == [w];
      assert Flatten(groups[..n]) == all[..|words|] == words;
    } else {
      var shorter := last[..|last| - 1];
      var less := groups[n := shorter];
      assert less[..n] == groups[..n];
      assert Flatten(less) == Flatten(groups[..n]) + shorter == all[..|words|] == words;
      forall i | 0 <= i < |less| ensures less[i] != [] && |Join(less[i])| <= max { }
    }
  }

  /** Adding a word the greedy way stays ahead. */
  lemma GreedyStep(count: nat, last: nat, words: seq<string>, w: string, max: nat)
    requires words != [] && Ahead(count, last, words, max)
    ensures if last + 1 + |w| <= max then Ahead(count, last + 1 + |w|, words + [w], max)
            else Ahead(count + 1, |w|, words + [w], max)
  {
    forall groups | Arranges(groups, words + [w], max) && groups != []
      ensures var n := |groups| - 1;
              if last + 1 + |w| <= max then
                count < |groups| || (count == |groups| && last + 1 + |w| <= |Join(groups[n])|)
              else count + 1 < |groups| || (count + 1 == |groups| && |w| <= |Join(groups[n])|)
    {
      var n := |groups| - 1;
      DropLastWord(groups, words, w, max);
      if groups[n] != [w] {
        var less := groups[n := groups[n][..|groups[n]| - 1]];
        assert Arranges(less, words, max) && less[n] == groups[n][..|groups[n]| - 1];
      }
    }
  }

  lemma FirstWord(w: string, max: nat)
    ensures Ahead(1, |w|, [w], max)
  {
    forall groups | Arranges(groups, [w], max) && groups != [] ensures 1 < |groups| || |w| <= |Join(groups[0])| {
      if |groups| == 1 {
        assert Flatten(groups) == Flatten(groups[..0]) + groups[0] == groups[0];
      }
    }
  }

  // ----- Wrapping -----

  predicate FitsLines(lines: seq<string>, max: nat)
  {
    forall i :: 0 <= i < |lines| ==> lines[i] != "" && |lines[i]| <= max
  }

  predicate NoLongWord(words: seq<string>, max: nat)
  {
    forall i :: 0 <= i < |words| ==> |words[i]| <= max
  }

  /** The finished lines and the current one hold these words, nothing but white space added. */
  predicate Holds(lines: seq<string>, current: string, words: seq<string>, max: nat)
  {
    FitsLines(lines, max) && |current| <= max && Bare(Concat(lines)) + Bare(current) == Concat(words)
  }

  /** The finished lines and the current one are the groups of a greedy arrangement. */
  ghost predicate Greedy(lines: seq<string>, current: string, groups: seq<seq<string>>, group: seq<string>,
                         words: seq<string>, max: nat)
  {
    Arranges(groups, Flatten(groups), max) && lines == Lines(groups) && Flatten(groups) + group == words &&
    (if words == [] then group == [] && groups == [] && current == ""
     else group != [] && current == Join(group) && |current| <= max && Ahead(|groups| + 1, |current|, words, max))
  }

  /** Moving the current line to the finished ones. */
  lemma Finish(lines: seq<string>, current: string, words: seq<string>, max: nat)
    requires Holds(lines, current, words, max) && current != ""
    ensures Holds(lines + [current], "", words, max)
  {
    ConcatMore(lines, current);
    BareConcat(Concat(lines), current);
  }

  lemma OnSameLine(lines: seq<string>, current: string, words: seq<string>, w: string, max: nat)
    requires Holds(lines, current, words, max) && Word(w) && current != "" && |current + " " + w| <= max
    ensures Holds(lines, current + " " + w, words + [w], max)
  {
    ConcatMore(words, w);
    BareJoin(current, w);
    var a, b := Bare(Concat(lines)), Bare(current);
    assert a + (b + w) == a + b + w;
  }

  lemma BareJoin(a: string, w: string)
    requires Word(w)
    ensures Bare(a + " " + w) == Bare(a) + w
  {
    BareConcat(a + " ", w);
    BareConcat(a, " ");
    BareWord(w);
    assert Bare(" ") == "";
    assert Bare(a) + "" == Bare(a);
  }

  lemma OnNewLine(lines: seq<string>, words: seq<string>, w: string, max: nat)
    requires Holds(lines, "", words, max) && Word(w) && |w| <= max
    ensures Holds(lines, w, words + [w], max)
  {
    ConcatMore(words, w);
    BareWord(w);
    var a := Bare(Concat(lines));
    assert a + Bare("") == a;
  }

  /** The line is full: its group is finished and a new one starts. */
  lemma GreedyNewLine(lines: seq<string>, current: string, groups: seq<seq<string>>, group: seq<string>,
                      words: seq<string>, w: string, max: nat)
    requires Greedy(lines, current, groups, group, words, max) && words != [] && |current| + 1 + |w| > max >= |w|
    ensures Greedy(lines + [current], w, groups + [group], [w], words + [w], max)
  {
    var more := groups + [group];
    assert more[..|groups|] == groups;
    assert Lines(more) == Lines(groups) + [Join(group)];
    GreedyStep(|groups| + 1, |current|, words, w, max);
  }

  lemma GreedySameLine(lines: seq<string>, current: string, groups: seq<seq<string>>, group: seq<string>,
                       words: seq<string>, w: string, max: nat)
    requires Greedy(lines, current, groups, group, words, max) && words != [] && |current| + 1 + |w| <= max
    ensures Greedy(lines, current + " " + w, groups, group + [w], words + [w], max)
  {
    assert (group + [w])[..|group|] == group;
    assert Flatten(groups) + (group + [w]) == words + [w];
    GreedyStep(|groups| + 1, |current|, words, w, max);
  }

  lemma GreedyFirst(w: string, max: nat)
    requires |w| <= max
    ensures Greedy([], w, [], [w], [w], max)
  {
    FirstWord(w, max);
  }

  lemma {:induction false} JoinNotEmpty(group: seq<string>)
    requires group != [] && Words(group)
    ensures Join(group) != ""
    decreases group
  {
    if |group| > 1 { JoinNotEmpty(group[..|group| - 1]); }
  }

  lemma WordsOfGroup(before: seq<string>, group: seq<string>)
    requires Words(before + group)
    ensures Words(group)
  {
    forall k | 0 <= k < |group| ensures Word(group[k]) {
      assert group[k] == (before + group)[|before| + k];
    }
  }

  /** Once there was a word there is a current line. */
  lemma GreedyStarted(lines: seq<string>, current: string, groups: seq<seq<string>>, group: seq<string>,
                      words: seq<string>, max: nat)
    requires Greedy(lines, current, groups, group, words, max) && Words(words)
    ensures current == "" <==> words == []
    ensures words == [] ==> lines == []
  {
    if words != [] {
      WordsOfGroup(Flatten(groups), group);
      JoinNotEmpty(group);
    }
  }

  /** The lines are an arrangement of the words, and no arrangement has fewer. */
  ghost predicate Fewest(lines: seq<string>, words: seq<string>, max: nat)
  {
    (exists groups :: Arranges(groups, words, max) && lines == Lines(groups)) &&
    forall groups :: Arranges(groups, words, max) ==> |lines| <= |groups|
  }

  /** At the end the lines are an arrangement, and no other has fewer lines. */
  lemma GreedyEnds(lines: seq<string>, current: string, groups: seq<seq<string>>, group: seq<string>,
                   words: seq<string>, max: nat)
    requires Greedy(lines, current, groups, group, words, max) && Words(words)
    ensures Fewest(if current == "" then lines else lines + [current], words, max)
  {
    GreedyStarted(lines, current, groups, group, words, max);
    if words == [] {
      assert Arranges([], words, max) && lines == Lines([]);
    } else {
      var more := groups + [group];
      assert more[..|groups|] == groups;
      assert Arranges(more, words, max) && lines + [current] == Lines(more);
    }
  }

  /** What the loop keeps: the text, and the lead over all arrangements. */
  ghost predicate Wrapped(lines: seq<string>, current: string, groups: seq<seq<string>>, group: seq<string>,
                          pieces: seq<string>, max: nat)
  {
    Holds(lines, current, pieces, max) && Words(pieces) && Greedy(lines, current, groups, group, pieces, max)
  }

  lemma StepFirst(lines: seq<string>, groups: seq<seq<string>>, group: seq<string>, pieces: seq<string>,
                  w: string, max: nat)
    requires Wrapped(lines, "", groups, group, pieces, max) && Word(w) && |w| <= max
    ensures Wrapped(lines, w, groups, [w], pieces + [w], max)
  {
    OnNewLine(lines, pieces, w, max);
    GreedyStarted(lines, "", groups, group, pieces, max);
    GreedyFirst(w, max);
  }

  lemma StepSame(lines: seq<string>, current: string, groups: seq<seq<string>>, group: seq<string>, pieces: seq<string>,
                 w: string, max: nat)
    requires Wrapped(lines, current, groups, group, pieces, max) && Word(w) && current != ""
    requires |current + " " + w| <= max
    ensures Wrapped(lines, current + " " + w, groups, group + [w], pieces + [w], max)
  {
    OnSameLine(lines, current, pieces, w, max);
    GreedyStarted(lines, current, groups, group, pieces, max);
    GreedySameLine(lines, current, groups, group, pieces, w, max);
  }

  lemma StepFull(lines: seq<string>, current: string, groups: seq<seq<string>>, group: seq<string>, pieces: seq<string>,
                 w: string, max: nat)
    requires Wrapped(lines, current, groups, group, pieces, max) && Word(w) && current != ""
    requires |current + " " + w| > max >= |w|
    ensures Wrapped(lines + [current], w, groups + [group], [w], pieces + [w], max)
  {
    Finish(lines, current, pieces, max);
    OnNewLine(lines + [current], pieces, w, max);
    GreedyStarted(lines, current, groups, group, pieces, max);
    GreedyNewLine(lines, current, groups, group, pieces, w, max);
  }

  /** All lines, the current one too unless it is empty. */
  function AllLines(lines: seq<string>, current: string): seq<string>
  {
    if current == "" then lines else lines + [current]
  }

  /** A piece that fills a whole line goes on a line of its own. */
  lemma StepPiece(lines: seq<string>, current: string, groups: seq<seq<string>>, group: seq<string>,
                  pieces: seq<string>, w: string, max: nat) returns (more: seq<seq<string>>)
    requires Wrapped(lines, current, groups, group, pieces, max) && Word(w) && |w| <= max
    requires |w| == max || |current| == max
    ensures Wrapped(AllLines(lines, current), w, more, [w], pieces + [w], max)
  {
    if current == "" {
      StepFirst(lines, groups, group, pieces, w, max);
      more := groups;
    } else {
      StepFull(lines, current, groups, group, pieces, w, max);
      more := groups + [group];
    }
  }

  /** What cutting keeps: `cut` are the pieces so far, and the last of them fills the line before `rest`. */
  ghost predicate Cutting(done: seq<string>, last: string, groups: seq<seq<string>>, group: seq<string>,
                          pieces: seq<string>, cut: seq<string>, word: string, rest: string, max: nat)
  {
    max > 0 && Wrapped(done, last, groups, group, pieces + cut, max) && Word(rest) &&
    Pieces(word, max) == cut + Pieces(rest, max) && (|rest| > max || |last| == max)
  }

  lemma CutStep(done: seq<string>, last: string, groups: seq<seq<string>>, group: seq<string>, pieces: seq<string>,
                cut: seq<string>, word: string, rest: string, max: nat) returns (more: seq<seq<string>>)
    requires Cutting(done, last, groups, group, pieces, cut, word, rest, max) && |rest| > max
    ensures Cutting(AllLines(done, last), rest[..max], more, [rest[..max]], pieces, cut + [rest[..max]], word,
                    rest[max..], max)
  {
    var piece := rest[..max];
    PieceMoves(pieces, cut, rest, max);
    more := StepPiece(done, last, groups, group, pieces + cut, piece, max);
    CuttingNext(AllLines(done, last), piece, more, pieces, cut + [piece], pieces + cut + [piece], word, rest[max..],
                max);
  }

  lemma PieceMoves(pieces: seq<string>, cut: seq<string>, rest: string, max: nat)
    requires |rest| > max > 0 && Word(rest)
    ensures pieces + cut + [rest[..max]] == pieces + (cut + [rest[..max]])
    ensures cut + Pieces(rest, max) == cut + [rest[..max]] + Pieces(rest[max..], max)
    ensures Word(rest[..max]) && Word(rest[max..])
  {
    Associates(pieces, cut, [rest[..max]]);
    Associates(cut, [rest[..max]], Pieces(rest[max..], max));
    HalvesAreWords(rest, max);
  }

  lemma HalvesAreWords(w: string, n: nat)
    requires Word(w) && 0 < n < |w|
    ensures Word(w[..n]) && Word(w[n..])
  {
  }

  lemma Associates(a: seq<string>, b: seq<string>, c: seq<string>)
    ensures a + b + c == a + (b + c)
  {
  }

  lemma CuttingNext(done: seq<string>, last: string, groups: seq<seq<string>>, pieces: seq<string>,
                    cut: seq<string>, all: seq<string>, word: string, rest: string, max: nat)
    requires Wrapped(done, last, groups, [last], all, max) && all == pieces + cut && max > 0 && Word(rest)
    requires Pieces(word, max) == cut + Pieces(rest, max) && |last| == max
    ensures Cutting(done, last, groups, [last], pieces, cut, word, rest, max)
  {
  }

  lemma CutEnds(done: seq<string>, last: string, groups: seq<seq<string>>, group: seq<string>, pieces: seq<string>,
                cut: seq<string>, word: string, rest: string, max: nat) returns (more: seq<seq<string>>)
    requires Cutting(done, last, groups, group, pieces, cut, word, rest, max) && |rest| <= max
    ensures Wrapped(AllLines(done, last), rest, more, [rest], pieces + Pieces(word, max), max)
  {
    more := StepPiece(done, last, groups, group, pieces + cut, rest, max);
    Associates(pieces, cut, [rest]);
  }

  /** Cutting an over-long word: full lines until the rest fits. */
  method CutWord(before: seq<string>, line: string, word: string, max: nat, ghost groups0: seq<seq<string>>,
                 ghost group0: seq<string>, ghost pieces: seq<string>)
    returns (lines: seq<string>, rest: string, ghost groups: seq<seq<string>>, ghost group: seq<string>)
    requires Wrapped(before, line, groups0, group0, pieces, max) && Word(word) && |word| > max > 0
    ensures Wrapped(lines, rest, groups, group, pieces + Pieces(word, max), max)
  {
    lines, rest, groups, group := AllLines(before, line), word, groups0, group0;
    ghost var done, last, cut := before, line, [];
    assert pieces + cut == pieces;
    while |rest| > max
      invariant Cutting(done, last, groups, group, pieces, cut, word, rest, max) && lines == AllLines(done, last)
    {
      groups := CutStep(done, last, groups, group, pieces, cut, word, rest, max);
      done, last, group, cut := lines, rest[..max], [rest[..max]], cut + [rest[..max]];
      lines, rest := lines + [rest[..max]], rest[max..];
    }
    groups := CutEnds(done, last, groups, group, pieces, cut, word, rest, max);
    group := [rest];
  }

  /** The body of the loop: one more word. */
  method AddWord(before: seq<string>, line: string, word: string, max: nat, ghost groups0: seq<seq<string>>,
                 ghost group0: seq<string>, ghost pieces: seq<string>)
    returns (lines: seq<string>, current: string, ghost groups: seq<seq<string>>, ghost group: seq<string>)
    requires Wrapped(before, line, groups0, group0, pieces, max) && Word(word) && max > 0
    ensures Wrapped(lines, current, groups, group, pieces + Pieces(word, max), max)
  {
    lines, current, groups, group := before, line, groups0, group0;
    if |word| > max {
      lines, current, groups, group := CutWord(lines, current, word, max, groups, group, pieces);
    } else if current == "" {
      StepFirst(lines, groups, group, pieces, word, max);
      current, group := word, [word];
    } else if |current + " " + word| <= max {
      StepSame(lines, current, groups, group, pieces, word, max);
      current, group := current + " " + word, group + [word];
    } else {
      StepFull(lines, current, groups, group, pieces, word, max);
      lines, current, groups, group := lines + [current], word, groups + [group], [word];
    }
  }

  lemma WrapEnds(lines: seq<string>, current: string, groups: seq<seq<string>>, group: seq<string>, pieces: seq<string>,
                 max: nat)
    requires Wrapped(lines, current, groups, group, pieces, max)
    ensures var all := AllLines(lines, current);
            FitsLines(all, max) && Bare(Concat(all)) == Concat(pieces) && Fewest(all, pieces, max)
  {
    GreedyEnds(lines, current, groups, group, pieces, max);
    if current != "" { Finish(lines, current, pieces, max); }
  }

  lemma NextPieces(words: seq<string>, i: nat, max: nat)
    requires i < |words| && max > 0
    ensures AllPieces(words[..i + 1], max) == AllPieces(words[..i], max) + Pieces(words[i], max)
  {
    assert words[..i + 1][..i] == words[..i];
  }

  /** The loop over the words, and the last line. */
  method WrapWords(words: seq<string>, max: nat) returns (lines: seq<string>)
    requires Words(words) && max > 0
    ensures FitsLines(lines, max) && Bare(Concat(lines)) == Concat(words)
    ensures Fewest(lines, AllPieces(words, max), max)
  {
    lines := [];
    var current := "";
    ghost var groups: seq<seq<string>>, group: seq<string> := [], [];
    var i := 0;
    while i < |words|
      invariant 0 <= i <= |words|
      invariant Wrapped(lines, current, groups, group, AllPieces(words[..i], max), max)
    {
      NextPieces(words, i, max);
      lines, current, groups, group :=
        AddWord(lines, current, words[i], max, groups, group, AllPieces(words[..i], max));
      i := i + 1;
    }
    assert words[..i] == words;
    WrapEnds(lines, current, groups, group, AllPieces(words, max), max);
    AllPiecesMakeWords(words, max);
    lines := AllLines(lines, current);
  }

  /** `linuxWrapForUI`; a width below 8 counts as 8. */
  method WrapForUI(value: string, maxRunes: int) returns (lines: seq<string>)
    ensures Bare(Concat(lines)) == Bare(value)
    ensures maxRunes >= 8 ==>
              FitsLines(lines, maxRunes) && Fewest(lines, AllPieces(Fields(value), maxRunes), maxRunes) &&
              (NoLongWord(Fields(value), maxRunes) ==> Fewest(lines, Fields(value), maxRunes))
    ensures maxRunes < 8 ==>
              FitsLines(lines, 8) && Fewest(lines, AllPieces(Fields(value), 8), 8) &&
              (NoLongWord(Fields(value), 8) ==> Fewest(lines, Fields(value), 8))
  {
    FieldsKeepText(value);
    var max: nat := if maxRunes < 8 then 8 else maxRunes;
    lines := WrapWords(Fields(value), max);
    if NoLongWord(Fields(value), max) { PiecesOfShort(Fields(value), max); }
  }
}
