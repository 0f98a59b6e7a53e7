/** The two tokenizers: parse_arguments of src/user-shell.c and getWord of src/stdlib/string.c. */
module Tokenizer {
  import opened Memory

  const SPACE: byte := 32

  /** The size of the command buffer, and of each side of the argument table. */
  const LINE := 80

  // ----- Words

  /** A word begins at a: a byte that is not a space, after a space or at the front. */
  predicate StartsAt(s: Bytes, a: nat) {
    a < |s| && s[a] != SPACE && (a == 0 || s[a - 1] == SPACE)
  }

  /** s[a..b] is a maximal stretch without spaces. */
  predicate IsBlock(s: Bytes, a: nat, b: nat) {
    StartsAt(s, a) && a < b <= |s| && SPACE !in s[a..b] && (b == |s| || s[b] == SPACE)
  }

  ghost function StartsBelow(s: Bytes, k: nat): set<nat> {
    set a: nat | a < k && StartsAt(s, a)
  }

  /** What one more byte does to the words ws before it. */
  function Extended(ws: seq<Bytes>, s: Bytes, k: nat): seq<Bytes>
    requires k < |s|
  {
    if s[k] == SPACE then ws
    else if StartsAt(s, k) || ws == [] then ws + [[s[k]]]
    else ws[..|ws| - 1] + [ws[|ws| - 1] + [s[k]]]
  }

  /** The words of the first k bytes, read byte by byte. */
  function WordsTo(s: Bytes, k: nat): (ws: seq<Bytes>)
    requires k <= |s|
    ensures k > 0 && s[k - 1] != SPACE ==> ws != []
  {
    if k == 0 then [] else Extended(WordsTo(s, k - 1), s, k - 1)
  }

  function Words(s: Bytes): seq<Bytes> {
    WordsTo(s, |s|)
  }

  function Word(s: Bytes, i: nat): Bytes {
    var ws := Words(s);
    if i < |ws| then ws[i] else []
  }

  /** A start adds a word. */
  lemma NextCount(s: Bytes, k: nat)
    requires k < |s|
    ensures |WordsTo(s, k + 1)| == |WordsTo(s, k)| + (if StartsAt(s, k) then 1 else 0)
  {
  }

  lemma NextStart(s: Bytes, k: nat)
    ensures |StartsBelow(s, k + 1)| == |StartsBelow(s, k)| + (if StartsAt(s, k) then 1 else 0)
  {
    if StartsAt(s, k) {
      assert StartsBelow(s, k + 1) == StartsBelow(s, k) + {k};
    } else {
      assert StartsBelow(s, k + 1) == StartsBelow(s, k);
    }
  }

  lemma {:induction false} CountStarts(s: Bytes, k: nat)
    requires k <= |s|
    ensures |WordsTo(s, k)| == |StartsBelow(s, k)|
  {
    if k == 0 {
      assert StartsBelow(s, 0) == {};
    } else {
      CountStarts(s, k - 1);
      NextCount(s, k - 1);
      NextStart(s, k - 1);
    }
  }

  /** The stretch from a start to a later point, with no space in it, is the last word up to there. */
  lemma {:induction false} Growing(s: Bytes, a: nat, b: nat)
    requires StartsAt(s, a) && a < b <= |s| && SPACE !in s[a..b]
    ensures WordsTo(s, b) == WordsTo(s, a) + [s[a..b]]
  {
    if b == a + 1 {
      assert s[a..b] == [s[a]];
    } else {
      assert s[b - 2] == s[a..b][b - 2 - a] && s[b - 1] == s[a..b][b - 1 - a];
      assert s[a..b] == s[a..b - 1] + [s[b - 1]];
      Growing(s, a, b - 1);
    }
  }

  /** A finished word is not touched again. */
  lemma {:induction false} Finished(s: Bytes, b: nat, i: nat)
    requires b <= |s| && i < |WordsTo(s, b)| && (b == |s| || s[b] == SPACE)
    ensures i < |Words(s)| && Words(s)[i] == WordsTo(s, b)[i]
    decreases |s| - b
  {
    if b < |s| {
      FinishedTo(s, b, |s|, i);
    }
  }

  /** Words ws up to k go on from the finished words fs: word i is not the one a byte extends. */
  ghost predicate GoesOn(fs: seq<Bytes>, ws: seq<Bytes>, s: Bytes, k: nat, i: nat) {
    0 < k <= |s| && i < |fs| <= |ws| && ws[i] == fs[i] && (|ws| == |fs| ==> s[k - 1] == SPACE)
  }

  lemma GoesOnStep(fs: seq<Bytes>, ws: seq<Bytes>, next: seq<Bytes>, s: Bytes, k: nat, i: nat)
    requires k < |s| && next == Extended(ws, s, k)
    requires if k > 0 && s[k] != SPACE then GoesOn(fs, ws, s, k, i)
             else i < |fs| <= |ws| && ws[i] == fs[i]
    ensures GoesOn(fs, next, s, k + 1, i)
  {
  }

  lemma {:induction false} FinishedTo(s: Bytes, b: nat, k: nat, i: nat)
    requires b < k <= |s| && s[b] == SPACE && i < |WordsTo(s, b)|
    ensures GoesOn(WordsTo(s, b), WordsTo(s, k), s, k, i)
    decreases k
  {
    if k > b + 1 {
      FinishedTo(s, b, k - 1, i);
    }
    GoesOnStep(WordsTo(s, b), WordsTo(s, k - 1), WordsTo(s, k), s, k - 1, i);
  }

  /** Word i is the maximal space-free block before which exactly i words begin. */
  lemma BlockIsWord(s: Bytes, a: nat, b: nat)
    requires IsBlock(s, a, b)
    ensures |StartsBelow(s, a)| < |Words(s)| && Words(s)[|StartsBelow(s, a)|] == s[a..b]
  {
    CountStarts(s, a);
    Growing(s, a, b);
    Finished(s, b, |WordsTo(s, a)|);
  }

  lemma {:induction false} NthStart(s: Bytes, k: nat, i: nat) returns (a: nat)
    requires k <= |s| && i < |WordsTo(s, k)|
    ensures StartsAt(s, a) && |WordsTo(s, a)| == i
  {
    NextCount(s, k - 1);
    if i < |WordsTo(s, k - 1)| {
      a := NthStart(s, k - 1, i);
    } else {
      a := k - 1;
    }
  }

  function BlockEnd(s: Bytes, a: nat): (b: nat)
    requires a < |s|
    ensures a <= b <= |s| && SPACE !in s[a..b] && (b == |s| || s[b] == SPACE)
    decreases |s| - a
  {
    if s[a] == SPACE then a
    else if a + 1 == |s| then a + 1
    else
      var b := BlockEnd(s, a + 1);
      assert s[a..b] == [s[a]] + s[a + 1..b];
      b
  }

  /** The words of s are its maximal space-free blocks, in order: word i is w exactly when w is a
      block before which i words begin. */
  lemma WordsAreBlocks(s: Bytes, i: nat, w: Bytes)
    ensures i < |Words(s)| && Words(s)[i] == w <==>
            exists a: nat, b: nat :: IsBlock(s, a, b) && |StartsBelow(s, a)| == i && s[a..b] == w
  {
    if a: nat, b: nat :| IsBlock(s, a, b) && |StartsBelow(s, a)| == i && s[a..b] == w {
      BlockIsWord(s, a, b);
    }
    if i < |Words(s)| && Words(s)[i] == w {
      var a := NthStart(s, |s|, i);
      var b := BlockEnd(s, a);
      CountStarts(s, a);
      BlockIsWord(s, a, b);
      assert IsBlock(s, a, b) && |StartsBelow(s, a)| == i && s[a..b] == w;
    }
  }

  // ----- Joining

  ghost predicate IsWord(w: Bytes) {
    w != [] && SPACE !in w
  }

  /** The words with single spaces between them. */
  function Join(ws: seq<Bytes>): Bytes {
    if ws == [] then []
    else if |ws| == 1 then ws[0]
    else Join(ws[..|ws| - 1]) + [SPACE] + ws[|ws| - 1]
  }

  lemma {:induction false} PrefixWords(s: Bytes, t: Bytes, k: nat)
    requires k <= |s| <= |t| && t[..|s|] == s
    ensures WordsTo(t, k) == WordsTo(s, k)
  {
    if k > 0 {
      PrefixWords(s, t, k - 1);
      assert t[..|s|][k - 1] == t[k - 1];
      if k > 1 {
        assert t[..|s|][k - 2] == t[k - 2];
      }
    }
  }

  lemma AppendWord(s: Bytes, w: Bytes)
    requires IsWord(w) && (s == [] || s[|s| - 1] == SPACE)
    ensures Words(s + w) == Words(s) + [w]
  {
    var t := s + w;
    assert t[..|s|] == s && t[|s|..|t|] == w;
    assert t[|s|] == w[0] && (s != [] ==> t[|s| - 1] == s[|s| - 1]);
    PrefixWords(s, t, |s|);
    Growing(t, |s|, |t|);
  }

  lemma AppendSpace(s: Bytes)
    ensures Words(s + [SPACE]) == Words(s)
  {
    var t := s + [SPACE];
    assert t[..|s|] == s;
    PrefixWords(s, t, |s|);
  }

  lemma {:induction false} JoinRoundTrip(ws: seq<Bytes>)
    requires forall w :: w in ws ==> IsWord(w)
    ensures Words(Join(ws)) == ws
  {
    if ws != [] {
      var rest, w := ws[..|ws| - 1], ws[|ws| - 1];
      JoinRoundTrip(rest);
      if |ws| == 1 {
        AppendWord([], w);
        assert [] + w == w;
      } else {
        AppendSpace(Join(rest));
        AppendWord(Join(rest) + [SPACE], w);
      }
      assert ws == rest + [w];
    }
  }

  /** Every word is a block, so it is not empty, has no space, and its bytes come from s. */
  lemma WordOfBlock(s: Bytes, i: nat)
    requires i < |Words(s)|
    ensures exists a: nat, b: nat :: IsBlock(s, a, b) && Words(s)[i] == s[a..b]
  {
    WordsAreBlocks(s, i, Words(s)[i]);
    var a: nat, b: nat :| IsBlock(s, a, b) && |StartsBelow(s, a)| == i && s[a..b] == Words(s)[i];
  }

  /** Joining the words with single spaces and parsing again gives the same words. */
  lemma Reparse(s: Bytes)
    ensures Words(Join(Words(s))) == Words(s)
  {
    forall w | w in Words(s)
      ensures IsWord(w)
    {
      var i :| 0 <= i < |Words(s)| && Words(s)[i] == w;
      WordOfBlock(s, i);
    }
    JoinRoundTrip(Words(s));
  }

  // ----- Limits

  /** The words and their lengths fit the argument table. */
  ghost predicate Holds(s: Bytes) {
    |Words(s)| <= LINE && forall w :: w in Words(s) ==> |w| <= LINE
  }

  /** A command of at most 79 bytes fits, with room for the terminators. */
  lemma ShortLine(s: Bytes)
    requires |s| < LINE
    ensures Holds(s) && forall i :: 0 <= i < |Words(s)| ==> |Words(s)[i]| < LINE
  {
    forall i | 0 <= i < |Words(s)|
      ensures |Words(s)[i]| < LINE
    {
      WordOfBlock(s, i);
    }
    FewWords(s, |s|);
  }

  lemma {:induction false} FewWords(s: Bytes, k: nat)
    requires k <= |s|
    ensures |WordsTo(s, k)| <= k
  {
    if k > 0 {
      FewWords(s, k - 1);
    }
  }

  /** Words only grow. */
  lemma {:induction false} WordsGrow(s: Bytes, k: nat, n: nat)
    requires k <= n <= |s|
    ensures |WordsTo(s, k)| <= |WordsTo(s, n)|
    ensures forall i :: 0 <= i < |WordsTo(s, k)| ==> |WordsTo(s, k)[i]| <= |WordsTo(s, n)[i]|
    decreases n
  {
    if k < n {
      WordsGrow(s, k, n - 1);
    }
  }

  // ----- The code

  /** Byte j of row i of the argument table. */
  function Filled(ws: seq<Bytes>, i: nat, j: nat): byte {
    if i < |ws| && j < |ws[i]| then ws[i][j] else 0
  }

  method ParseArguments(command: Bytes, args: array2<byte>)
    requires Terminated(command) && Holds(CStr(command))
    requires args.Length0 == LINE && args.Length1 == LINE
    requires forall a: nat, b: nat :: a < LINE && b < LINE ==> args[a, b] == 0
    modifies args
    ensures forall a: nat, b: nat :: a < LINE && b < LINE ==> args[a, b] == Filled(Words(CStr(command)), a, b)
  {
    ghost var s := CStr(command);
    var n := StrLen(command);
    var i: nat, j: nat, k: nat := 0, 0, 0;
    while k < n
      invariant k <= n == |s| && Cursor(s, k, i, j)
      invariant forall a: nat, b: nat :: a < LINE && b < LINE ==> args[a, b] == Filled(WordsTo(s, k), a, b)
    {
      if command[k] == SPACE {
        SkipAt(s, k, i, j);
        if j != 0 {
          i := i + 1;
        }
        j := 0;
      } else {
        FitsAt(s, k, i, j);
        args[i, j] := command[k];
        j := j + 1;
      }
      k := k + 1;
    }
  }

  /** One byte c goes to row i, column j: at the end of the last word, or as a new word. */
  lemma FillOne(ws: seq<Bytes>, next: seq<Bytes>, i: nat, j: nat, c: byte)
    requires (i == |ws| - 1 && j == |ws[i]| && next == ws[..i] + [ws[i] + [c]])
             || (i == |ws| && j == 0 && next == ws + [[c]])
    ensures forall a: nat, b: nat :: Filled(next, a, b) == if a == i && b == j then c else Filled(ws, a, b)
  {
    forall a: nat, b: nat
      ensures Filled(next, a, b) == if a == i && b == j then c else Filled(ws, a, b)
    {
      if a < i {
        assert next[a] == ws[a];
      }
    }
  }

  /** Where the byte at k is to go: row i, column j. */
  ghost predicate Cursor(s: Bytes, k: nat, i: nat, j: nat)
    requires k <= |s|
  {
    if k > 0 && s[k - 1] != SPACE then j > 0 && i == |WordsTo(s, k)| - 1 && j == |WordsTo(s, k)[i]|
    else j == 0 && i == |WordsTo(s, k)|
  }

  lemma SkipAt(s: Bytes, k: nat, i: nat, j: nat)
    requires k < |s| && s[k] == SPACE && Cursor(s, k, i, j)
    ensures WordsTo(s, k + 1) == WordsTo(s, k)
    ensures Cursor(s, k + 1, if j != 0 then i + 1 else i, 0)
  {
  }

  /** Where byte k goes. */
  lemma FitsAt(s: Bytes, k: nat, i: nat, j: nat)
    requires Holds(s) && k < |s| && s[k] != SPACE && Cursor(s, k, i, j)
    ensures i < LINE && j < LINE && Cursor(s, k + 1, i, j + 1)
    ensures forall a: nat, b: nat ::
              Filled(WordsTo(s, k + 1), a, b) == if a == i && b == j then s[k] else Filled(WordsTo(s, k), a, b)
  {
    WordsGrow(s, k + 1, |s|);
    FillOne(WordsTo(s, k), WordsTo(s, k + 1), i, j, s[k]);
    assert Words(s)[i] in Words(s);
  }

  /** Where word number wordIdx begins: at a start, or, after trailing spaces, at the terminator. */
  method FindWord(str: Bytes, wordIdx: nat) returns (idx: int)
    requires Terminated(str)
    ensures idx == -1 ==> |Words(CStr(str))| <= wordIdx
    ensures idx != -1 ==> 0 <= idx <= |CStr(str)|
    ensures 0 <= idx < |CStr(str)| ==> StartsAt(CStr(str), idx) && |WordsTo(CStr(str), idx)| == wordIdx
    ensures idx == |CStr(str)| ==> |Words(CStr(str))| == wordIdx
  {
    ghost var s := CStr(str);
    var counter := 0;
    idx := -1;
    var n := StrLen(str);
    var i: nat := 0;
    while i < n
      invariant i <= n == |s| && idx == -1 && 0 <= counter <= wordIdx
      invariant i == 0 ==> counter == 0
      invariant 0 < i < n ==> counter == |WordsTo(s, i + 1)|
      invariant i == n ==> counter == |Words(s)| || (counter == |Words(s)| + 1)
    {
      if i == 0 && str[i] != SPACE {
        counter := counter + 1;
        if wordIdx + 1 == counter {
          idx := i;
          break;
        }
      } else if str[i] == SPACE && str[i + 1] != SPACE {
        counter := counter + 1;
        if wordIdx + 1 == counter {
          idx := i + 1;
          break;
        }
      }
      i := i + 1;
    }
  }

  /** The wanted word runs from where FindWord stopped to the next space or the end. */
  lemma WordFrom(s: Bytes, wordIdx: nat, from: nat)
    requires from <= |s|
    requires if from < |s| then StartsAt(s, from) && |WordsTo(s, from)| == wordIdx else |Words(s)| == wordIdx
    ensures var end := from + |Word(s, wordIdx)|;
            end <= |s| && Word(s, wordIdx) == s[from..end] && SPACE !in s[from..end] && (end < |s| ==> s[end] == SPACE)
  {
    if from < |s| {
      var end := BlockEnd(s, from);
      CountStarts(s, from);
      BlockIsWord(s, from, end);
    }
  }

  /** Copies w, which lies in str at from, and terminates it. */
  method CopyWord(str: Bytes, from: nat, buf: array<byte>, ghost w: Bytes)
    requires Terminated(str) && from + |w| <= CLen(str) && |w| < buf.Length
    requires w == str[from..from + |w|] && SPACE !in w && (from + |w| < CLen(str) ==> str[from + |w|] == SPACE)
    modifies buf
    ensures buf[..] == Overwrite(old(buf[..]), 0, w + [0])
  {
    var n := StrLen(str);
    var idx, i: nat := from, 0;
    while str[idx] != SPACE && idx < n
      invariant i <= |w| && idx == from + i
      invariant forall k :: 0 <= k < buf.Length ==> buf[k] == if k < i then w[k] else old(buf[k])
      decreases n - idx
    {
      assert i < |w|;
      buf[i] := str[idx];
      i := i + 1;
      idx := idx + 1;
    }
    buf[i] := 0;
  }

  method GetWord(str: Bytes, wordIdx: nat, buf: array<byte>)
    requires Terminated(str) && |Word(CStr(str), wordIdx)| < buf.Length
    modifies buf
    ensures buf[..] == Overwrite(old(buf[..]), 0, Word(CStr(str), wordIdx) + [0])
  {
    var idx := FindWord(str, wordIdx);
    if idx == -1 {
      buf[0] := 0;
    } else {
      WordFrom(CStr(str), wordIdx, idx);
      CopyWord(str, idx, buf, Word(CStr(str), wordIdx));
    }
  }

  // ----- Agreement

  lemma CharsOfWord(s: Bytes, i: nat)
    requires 0 !in s
    ensures 0 !in Word(s, i)
  {
    if i < |Words(s)| {
      WordOfBlock(s, i);
      var a: nat, b: nat :| IsBlock(s, a, b) && Words(s)[i] == s[a..b];
      assert forall k :: 0 <= k < b - a ==> s[a..b][k] == s[a + k];
    }
  }

  /** Memory that holds w and a zero reads as w. */
  lemma HoldsString(mem: Bytes, w: Bytes)
    requires 0 !in w && |w| < |mem| && mem[..|w|] == w && mem[|w|] == 0
    ensures Terminated(mem) && CStr(mem) == w
  {
    assert forall k :: 0 <= k < |w| ==> mem[k] == w[k];
    CLenUnique(mem, |w|);
  }

  lemma RowIsWord(s: Bytes, i: nat, row: Bytes)
    requires 0 !in s && |s| < LINE && |row| == LINE
    requires forall j: nat :: j < LINE ==> row[j] == Filled(Words(s), i, j)
    ensures Terminated(row) && CStr(row) == Word(s, i)
  {
    ShortLine(s);
    CharsOfWord(s, i);
    var w := Word(s, i);
    assert row[..|w|] == w;
    HoldsString(row, w);
  }

  /** Row i of the argument table and the buffer given to getWord, read as C strings, hold the same word. */
  lemma TokenizersAgree(s: Bytes, i: nat, row: Bytes, was: Bytes, buf: Bytes)
    requires 0 !in s && |s| < LINE && |row| == LINE && |Word(s, i)| < |was|
    requires forall j: nat :: j < LINE ==> row[j] == Filled(Words(s), i, j)
    requires buf == Overwrite(was, 0, Word(s, i) + [0])
    ensures Terminated(row) && Terminated(buf) && CStr(row) == CStr(buf) == Word(s, i)
  {
    RowIsWord(s, i, row);
    CharsOfWord(s, i);
    var w := Word(s, i);
    assert buf[..|w|] == w && buf[|w|] == (w + [0])[|w|];
    HoldsString(buf, w);
  }

  /** Row i of the argument table. */
  ghost function Row(args: array2<byte>, i: nat): (row: Bytes)
    requires args.Length0 == LINE && args.Length1 == LINE && i < LINE
    reads args
    ensures |row| == LINE && forall j: nat :: j < LINE ==> row[j] == args[i, j]
  {
    seq(LINE, j requires 0 <= j < LINE && i < LINE && args.Length0 == LINE && args.Length1 == LINE
              reads args => args[i, j])
  }

  /** Both tokenizers on one command: row i and the buffer hold the same C string, word i. */
  method TokenizeBoth(command: Bytes, i: nat, args: array2<byte>, buf: array<byte>)
    requires Terminated(command) && CLen(command) < LINE && i < LINE
    requires args.Length0 == LINE && args.Length1 == LINE && |Word(CStr(command), i)| < buf.Length
    requires forall a: nat, b: nat :: a < LINE && b < LINE ==> args[a, b] == 0
    modifies args, buf
    ensures Terminated(Row(args, i)) && Terminated(buf[..])
    ensures CStr(Row(args, i)) == CStr(buf[..]) == Word(CStr(command), i)
  {
    ghost var was := buf[..];
    ShortLine(CStr(command));
    ParseArguments(command, args);
    GetWord(command, i, buf);
    TokenizersAgree(CStr(command), i, Row(args, i), was, buf[..]);
  }
}
