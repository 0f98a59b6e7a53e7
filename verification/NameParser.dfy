/** The 8.3 name parser of src/user-shell.c and the listing that prints such names. */
module NameParser {
  import opened Memory
  import opened DirEntry

  const DOT: byte := 46
  const NEWLINE: byte := 10
  const NAME_SIZE := 8
  const EXT_SIZE := 3

  /** The parser reads as far as byte 12 of the argument. */
  const REACH := NAME_SIZE + 1 + EXT_SIZE + 1

  // ----- What the parser promises

  /** The place of the first dot of s, or its length. */
  function FirstDot(s: Bytes): (d: nat)
    ensures d <= |s| && DOT !in s[..d] && (d < |s| ==> s[d] == DOT)
  {
    if s == [] || s[0] == DOT then 0
    else
      var d := FirstDot(s[1..]);
      assert s[..d + 1] == [s[0]] + s[1..][..d];
      d + 1
  }

  function Base(s: Bytes): Bytes { s[..FirstDot(s)] }

  /** What follows the first dot. */
  function Rest(s: Bytes): Bytes {
    if FirstDot(s) == |s| then [] else s[FirstDot(s) + 1..]
  }

  function PadTo(s: Bytes, n: nat): Bytes
    requires |s| <= n
  {
    s + Zeros(n - |s|)
  }

  predicate IsParsable(s: Bytes) {
    |Base(s)| <= NAME_SIZE && |Rest(s)| <= EXT_SIZE
  }

  // ----- What the parser does

  /** Where the copy of the name stops. */
  function NameEnd(f: Bytes, i: nat): (r: nat)
    requires i <= NAME_SIZE < |f|
    ensures i <= r <= NAME_SIZE && forall k :: i <= k < r ==> f[k] != DOT && f[k] != 0
    ensures r < NAME_SIZE ==> f[r] == DOT || f[r] == 0
    decreases NAME_SIZE - i
  {
    if i == NAME_SIZE || f[i] == DOT || f[i] == 0 then i else NameEnd(f, i + 1)
  }

  datatype Parsed = Parsed(name: Bytes, ext: Bytes, code: nat)

  /** was is the extension buffer before the call. */
  function Parse(f: Bytes, was: Bytes): Parsed
    requires |f| >= REACH && |was| == EXT_SIZE
  {
    var i := NameEnd(f, 0);
    var name := PadTo(f[..i], NAME_SIZE);
    if f[i] == 0 then Parsed(name, NO_EXT, 0)
    else if f[i] != DOT then Parsed(name, was, 1)
    else Parsed(name, f[i + 1..i + 4], if f[i + 4] != 0 then 1 else 0)
  }

  method AddPadding(str: array<byte>, idx1: nat, idx2: nat)
    requires idx2 <= str.Length
    modifies str
    ensures forall k :: 0 <= k < str.Length ==> str[k] == if idx1 <= k < idx2 then 0 else old(str[k])
  {
    var i := idx1;
    while i < idx2
      invariant idx1 <= i && (i <= idx2 || i == idx1)
      invariant forall k :: 0 <= k < str.Length ==> str[k] == if idx1 <= k < i then 0 else old(str[k])
    {
      str[i] := 0;
      i := i + 1;
    }
  }

  method CopyName(filename: Bytes, name: array<byte>) returns (i: nat)
    requires |filename| >= REACH && name.Length == NAME_SIZE
    modifies name
    ensures i == NameEnd(filename, 0) && name[..] == PadTo(filename[..i], NAME_SIZE)
  {
    i := 0;
    while i < 8 && filename[i] != DOT && filename[i] != 0
      invariant i <= NAME_SIZE && NameEnd(filename, 0) == NameEnd(filename, i)
      invariant name[..i] == filename[..i]
    {
      name[i] := filename[i];
      i := i + 1;
    }
    AddPadding(name, i, 8);
  }

  method CopyExt(filename: Bytes, i: nat, ext: array<byte>) returns (j: nat)
    requires i + 4 < |filename| && ext.Length == EXT_SIZE
    modifies ext
    ensures j == i + 4 && ext[..] == filename[i + 1..i + 4]
  {
    j := i + 1;
    while j <= i + 3
      invariant i + 1 <= j <= i + 4
      invariant ext[..j - i - 1] == filename[i + 1..j]
    {
      ext[j - i - 1] := filename[j];
      j := j + 1;
    }
    AddPadding(ext, j - i - 1, 3);
  }

  method ParseNameAndExt(filename: Bytes, name: array<byte>, ext: array<byte>) returns (code: nat)
    requires |filename| >= REACH && name.Length == NAME_SIZE && ext.Length == EXT_SIZE && name != ext
    modifies name, ext
    ensures Parsed(name[..], ext[..], code) == Parse(filename, old(ext[..]))
  {
    var i := CopyName(filename, name);
    if filename[i] == 0 {
      AddPadding(ext, 0, 3);
      assert ext[..] == NO_EXT;
      return 0;
    }
    if filename[i] != DOT {
      return 1;
    }
    var j := CopyExt(filename, i, ext);
    if filename[j] != 0 {
      return 1;
    }
    return 0;
  }

  // ----- The parser keeps its promise

  lemma FirstDotIs(s: Bytes, d: nat)
    requires d <= |s| && DOT !in s[..d] && (d < |s| ==> s[d] == DOT)
    ensures FirstDot(s) == d
  {
    var e := FirstDot(s);
    assert forall k :: 0 <= k < d ==> s[..d][k] == s[k];
    assert forall k :: 0 <= k < e ==> s[..e][k] == s[k];
  }

  /** The copy stops at the first dot, at the end, or after eight bytes. */
  lemma StopsAtDot(f: Bytes)
    requires |f| >= REACH && Terminated(f)
    ensures NameEnd(f, 0) == if FirstDot(CStr(f)) <= NAME_SIZE then FirstDot(CStr(f)) else NAME_SIZE
  {
    var s, r, d := CStr(f), NameEnd(f, 0), FirstDot(CStr(f));
    assert forall k :: 0 <= k < d ==> s[..d][k] == f[k];
    assert d < |s| ==> f[d] == DOT;
    if r < d {
      assert f[r] == s[..d][r];
    }
  }

  /** The part after the dot, in zero-padded memory. */
  lemma AfterDot(f: Bytes, i: nat)
    requires |f| >= REACH && Terminated(f) && Padded(f) && i <= NAME_SIZE && i == FirstDot(CStr(f)) < CLen(f)
    ensures f[i + 4] == 0 <==> |Rest(CStr(f))| <= EXT_SIZE
    ensures f[i + 4] == 0 ==> f[i + 1..i + 4] == PadTo(Rest(CStr(f)), EXT_SIZE)
  {
    var n := CLen(f);
    if f[i + 4] == 0 {
      forall k | 0 <= k < 3
        ensures f[i + 1..i + 4][k] == PadTo(Rest(CStr(f)), EXT_SIZE)[k]
      {
        if i + 1 + k >= n {
          assert f[i + 1 + k] == 0;
        }
      }
    }
  }

  lemma ShortBase(f: Bytes, was: Bytes)
    requires |f| >= REACH && |was| == EXT_SIZE && Terminated(f) && Padded(f) && FirstDot(CStr(f)) <= NAME_SIZE
    ensures var s, p := CStr(f), Parse(f, was);
            (p.code == 0 <==> |Rest(s)| <= EXT_SIZE) && p.code <= 1
            && (p.code == 0 ==> p.name == PadTo(Base(s), NAME_SIZE) && p.ext == PadTo(Rest(s), EXT_SIZE))
  {
    var s, i := CStr(f), NameEnd(f, 0);
    StopsAtDot(f);
    assert f[..i] == Base(s);
    if i < |s| {
      AfterDot(f, i);
    }
  }

  /** On zero-padded input the result is 0 exactly when at most eight bytes come before the first dot
      and at most three after it; then both buffers hold those parts, padded with zeros. */
  lemma ParseOkIff(f: Bytes, was: Bytes)
    requires |f| >= REACH && |was| == EXT_SIZE && Terminated(f) && Padded(f)
    ensures var s, p := CStr(f), Parse(f, was);
            (p.code == 0 <==> IsParsable(s)) && p.code <= 1
            && (p.code == 0 ==> p.name == PadTo(Base(s), NAME_SIZE) && p.ext == PadTo(Rest(s), EXT_SIZE))
  {
    StopsAtDot(f);
    if FirstDot(CStr(f)) <= NAME_SIZE {
      ShortBase(f, was);
    }
  }

  /** The first n bytes of s, or all of them. */
  function Front(s: Bytes, n: nat): (r: Bytes)
    ensures |r| <= n
  {
    if |s| <= n then s else s[..n]
  }

  lemma FrontCopied(f: Bytes)
    requires |f| >= REACH && Terminated(f)
    ensures f[..NameEnd(f, 0)] == Front(Base(CStr(f)), NAME_SIZE)
  {
    StopsAtDot(f);
  }

  /** On zero-padded input, whatever the code: the name gets the first eight bytes before the first dot, the
      extension the first three after it, both padded; only a name that is too long leaves the extension as it
      was. */
  lemma ParseIs(f: Bytes, was: Bytes)
    requires |f| >= REACH && |was| == EXT_SIZE && Terminated(f) && Padded(f)
    ensures var s, p := CStr(f), Parse(f, was);
            && p.code == (if |Base(s)| <= NAME_SIZE && |Rest(s)| <= EXT_SIZE then 0 else 1)
            && p.name == PadTo(Front(Base(s), NAME_SIZE), NAME_SIZE)
            && p.ext == if |Base(s)| > NAME_SIZE then was else PadTo(Front(Rest(s), EXT_SIZE), EXT_SIZE)
  {
    var s, i := CStr(f), NameEnd(f, 0);
    ParseOkIff(f, was);
    StopsAtDot(f);
    FrontCopied(f);
    if FirstDot(s) <= NAME_SIZE && |Rest(s)| > EXT_SIZE {
      assert f[i + 1..i + 4] == Front(Rest(s), EXT_SIZE);
    }
  }

  lemma PadToPadded(s: Bytes, n: nat)
    requires |s| <= n && 0 !in s
    ensures Padded(PadTo(s, n))
  {
    assert forall k :: 0 <= k < |s| ==> PadTo(s, n)[k] == s[k];
  }

  /** What a successful parse returns is padded, as the requests for files need. */
  lemma ParsedIsProper(f: Bytes, was: Bytes, parent: u32, size: u32)
    requires |f| >= REACH && |was| == EXT_SIZE && Terminated(f) && Padded(f) && Parse(f, was).code == 0 && size > 0
    ensures var p := Parse(f, was);
            |p.name| == NAME_SIZE && |p.ext| == EXT_SIZE && ProperKey(RawRequest(p.name, p.ext, parent, size))
  {
    ParseOkIff(f, was);
    var s := CStr(f);
    assert forall x :: x in Base(s) || x in Rest(s) ==> x in s;
    PadToPadded(Base(s), NAME_SIZE);
    PadToPadded(Rest(s), EXT_SIZE);
  }

  lemma PaddedZero(s: Bytes, n: nat)
    requires |s| <= n && 0 !in s
    ensures PadTo(s, n) == Zeros(n) <==> s == []
  {
    if s != [] {
      assert PadTo(s, n)[0] == s[0] && s[0] in s;
    }
  }

  /** A successful parse gives the all-zero key, which names nothing, exactly for the empty text and ".". */
  lemma ZeroParseIff(f: Bytes, was: Bytes)
    requires |f| >= REACH && |was| == EXT_SIZE && Terminated(f) && Padded(f)
    ensures Parse(f, was) == Parsed(Zeros(NAME_SIZE), Zeros(EXT_SIZE), 0) <==> CStr(f) == [] || CStr(f) == [DOT]
  {
    var s := CStr(f);
    ParseOkIff(f, was);
    assert forall x :: x in Base(s) || x in Rest(s) ==> x in s;
    if IsParsable(s) {
      PaddedZero(Base(s), NAME_SIZE);
      PaddedZero(Rest(s), EXT_SIZE);
    }
    if s == [] || s == [DOT] {
      FirstDotIs(s, 0);
    }
    assert s != [] ==> s == [s[0]] + s[1..];
  }

  // ----- The listing

  /** The text for one entry; beyond is the memory after the eight bytes of the name. */
  function Shown(name: Bytes, ext: Bytes, beyond: Bytes): Bytes
    requires |name| == NAME_SIZE && |ext| == EXT_SIZE && Terminated(beyond)
  {
    assert beyond[CLen(beyond)] == (name + beyond)[NAME_SIZE + CLen(beyond)];
    CStr(name + beyond) + if ext[0] != 0 then [DOT] + ext else []
  }

  /** The line for slot i, if it has a name. */
  function Line(t: Cluster, beyond: Bytes, i: nat): Bytes
    requires i < SLOTS && Terminated(beyond)
  {
    var s := SlotAt(t, i);
    if Name(s)[0] == 0 then [] else Shown(Name(s), Ext(s), beyond) + [NEWLINE]
  }

  /** What is shown of slots 2 to n - 1. */
  function Listing(t: Cluster, beyond: Bytes, n: nat): Bytes
    requires 2 <= n <= SLOTS && Terminated(beyond)
    decreases n, |t|
  {
    if n == 2 then [] else Listing(t, beyond, n - 1) + Line(t, beyond, n - 1)
  }

  method ShowEntry(name: Bytes, ext: Bytes, beyond: Bytes) returns (text: Bytes)
    requires |name| == NAME_SIZE && |ext| == EXT_SIZE && Terminated(beyond)
    ensures text == Shown(name, ext, beyond)
  {
    assert (name + beyond)[NAME_SIZE + CLen(beyond)] == 0;
    var n := StrLen(name + beyond);
    text := (name + beyond)[..n];
    if ext[0] != 0 {
      text := text + [DOT];
      text := text + ext;
    }
  }

  method PrintLine(t: Cluster, beyond: Bytes, i: nat) returns (text: Bytes)
    requires i < SLOTS && Terminated(beyond)
    ensures text == Line(t, beyond, i)
  {
    text := [];
    var name := Name(SlotAt(t, i));
    if name[0] != 0 {
      text := ShowEntry(name, Ext(SlotAt(t, i)), beyond);
      text := text + [NEWLINE];
    }
  }

  method PrintNames(t: Cluster, beyond: Bytes) returns (out: Bytes)
    requires Terminated(beyond)
    ensures out == Listing(t, beyond, SLOTS)
  {
    out := [];
    for i := 2 to SLOTS
      invariant out == Listing(t, beyond, i)
    {
      var text := PrintLine(t, beyond, i);
      out := out + text;
    }
  }

  /** Slot i has a name. */
  predicate NamedSlot(t: Cluster, i: nat) {
    2 <= i < SLOTS && Name(SlotAt(t, i))[0] != 0
  }

  function Concat(texts: seq<Bytes>): Bytes {
    if texts == [] then [] else Concat(texts[..|texts| - 1]) + texts[|texts| - 1]
  }

  /** The slots before n that have a name, in order. */
  ghost predicate NamedBefore(t: Cluster, n: nat, slots: seq<nat>) {
    (forall j, k :: 0 <= j < k < |slots| ==> slots[j] < slots[k])
    && (forall i :: i in slots ==> i < n && NamedSlot(t, i))
    && forall i: nat :: i < n && NamedSlot(t, i) ==> i in slots
  }

  lemma NamedNext(t: Cluster, n: nat, slots: seq<nat>)
    requires NamedBefore(t, n, slots)
    ensures NamedBefore(t, n + 1, if NamedSlot(t, n) then slots + [n] else slots)
  {
    var next := if NamedSlot(t, n) then slots + [n] else slots;
    forall j, k | 0 <= j < k < |next|
      ensures next[j] < next[k]
    {
      if k == |slots| {
        assert slots[j] in slots;
      }
    }
  }

  lemma ConcatMore(texts: seq<Bytes>, x: Bytes)
    ensures Concat(texts + [x]) == Concat(texts) + x
  {
    assert (texts + [x])[..|texts|] == texts;
  }

  lemma ListingNext(t: Cluster, beyond: Bytes, n: nat)
    requires 2 <= n < SLOTS && Terminated(beyond)
    ensures Listing(t, beyond, n + 1) == Listing(t, beyond, n) + Line(t, beyond, n)
    ensures !NamedSlot(t, n) ==> Listing(t, beyond, n + 1) == Listing(t, beyond, n)
  {
  }

  ghost predicate AreLines(t: Cluster, beyond: Bytes, slots: seq<nat>, texts: seq<Bytes>)
    requires Terminated(beyond)
  {
    |texts| == |slots| && forall k :: 0 <= k < |slots| ==> slots[k] < SLOTS && texts[k] == Line(t, beyond, slots[k])
  }

  ghost predicate Lists(t: Cluster, beyond: Bytes, n: nat, slots: seq<nat>, texts: seq<Bytes>)
    requires 2 <= n <= SLOTS && Terminated(beyond)
  {
    NamedBefore(t, n, slots) && AreLines(t, beyond, slots, texts) && Listing(t, beyond, n) == Concat(texts)
  }

  lemma ListsNext(t: Cluster, beyond: Bytes, n: nat, slots: seq<nat>, texts: seq<Bytes>)
      returns (slots': seq<nat>, texts': seq<Bytes>)
    requires 2 <= n < SLOTS && Terminated(beyond) && Lists(t, beyond, n, slots, texts)
    ensures Lists(t, beyond, n + 1, slots', texts')
  {
    slots', texts' := slots, texts;
    NamedNext(t, n, slots);
    ListingNext(t, beyond, n);
    if NamedSlot(t, n) {
      ConcatMore(texts, Line(t, beyond, n));
      LinesMore(t, beyond, slots, texts, n);
      slots', texts' := slots + [n], texts + [Line(t, beyond, n)];
    }
  }

  lemma LinesMore(t: Cluster, beyond: Bytes, slots: seq<nat>, texts: seq<Bytes>, i: nat)
    requires Terminated(beyond) && i < SLOTS && AreLines(t, beyond, slots, texts)
    ensures AreLines(t, beyond, slots + [i], texts + [Line(t, beyond, i)])
  {
  }

  /** What ls prints: one text with a newline for each slot that has a name, one behind the other in the order
      of the slots. */
  lemma ListingIs(t: Cluster, beyond: Bytes) returns (slots: seq<nat>, texts: seq<Bytes>)
    requires Terminated(beyond)
    ensures NamedBefore(t, SLOTS, slots) && |texts| == |slots| && Listing(t, beyond, SLOTS) == Concat(texts)
    ensures forall k :: 0 <= k < |slots| ==>
              slots[k] < SLOTS
              && texts[k] == Shown(Name(SlotAt(t, slots[k])), Ext(SlotAt(t, slots[k])), beyond) + [NEWLINE]
  {
    slots, texts := [], [];
    for i := 2 to SLOTS
      invariant Lists(t, beyond, i, slots, texts)
    {
      slots, texts := ListsNext(t, beyond, i, slots, texts);
    }
    forall k | 0 <= k < |slots|
      ensures texts[k] == Shown(Name(SlotAt(t, slots[k])), Ext(SlotAt(t, slots[k])), beyond) + [NEWLINE]
    {
      assert slots[k] in slots && NamedSlot(t, slots[k]);
    }
  }

  /** The shown text with zeros after it. */
  function Typed(name: Bytes, ext: Bytes, beyond: Bytes, n: nat): Bytes
    requires |name| == NAME_SIZE && |ext| == EXT_SIZE && Terminated(beyond)
  {
    Shown(name, ext, beyond) + Zeros(n)
  }

  /** A name field w of an entry, its extension field, and the string that the shown text makes. */
  ghost predicate Shows(name: Bytes, ext: Bytes, w: Bytes, e: Bytes) {
    |w| <= NAME_SIZE && |e| <= EXT_SIZE && 0 !in w && 0 !in e
    && name == PadTo(w, NAME_SIZE) && ext == PadTo(e, EXT_SIZE)
  }

  function TextOf(w: Bytes, e: Bytes): Bytes {
    if e == [] then w else w + [DOT] + e
  }

  /** The shown text is the name, and a dot and the extension when there is one, up to zeros. */
  lemma TypedText(name: Bytes, ext: Bytes, beyond: Bytes, n: nat, w: Bytes, e: Bytes)
    requires Terminated(beyond) && Shows(name, ext, w, e) && (|w| < NAME_SIZE || beyond[0] == 0)
    requires |Typed(name, ext, beyond, n)| >= REACH && n > 0
    ensures var f := Typed(name, ext, beyond, n); Terminated(f) && Padded(f) && CStr(f) == TextOf(w, e)
  {
    NameText(name, beyond, w);
    assert ext[0] == if e == [] then 0 else e[0];
    var f, x := Typed(name, ext, beyond, n), TextOf(w, e);
    assert f == x + Zeros(|f| - |x|);
    assert 0 !in x;
    assert f[|x|] == 0 && forall k :: 0 <= k < |x| ==> f[k] == x[k];
    CLenUnique(f, |x|);
  }

  lemma NameText(name: Bytes, beyond: Bytes, w: Bytes)
    requires Terminated(beyond) && |w| <= NAME_SIZE && 0 !in w && name == PadTo(w, NAME_SIZE)
    requires |w| < NAME_SIZE || beyond[0] == 0
    ensures Terminated(name + beyond) && CStr(name + beyond) == w
  {
    var mem := name + beyond;
    assert mem[|w|] == 0 && forall k :: 0 <= k < |w| ==> mem[k] == w[k];
    CLenUnique(mem, |w|);
  }

  /** The parts of the text of a name without a dot are that name and its extension. */
  lemma TextParts(w: Bytes, e: Bytes)
    requires DOT !in w
    ensures Base(TextOf(w, e)) == w && Rest(TextOf(w, e)) == e
  {
    var x := TextOf(w, e);
    assert x[..|w|] == w;
    FirstDotIs(x, |w|);
  }

  /** The parser copies no dot into the name. */
  lemma NoDotCopied(f: Bytes, was: Bytes, k: nat)
    requires |f| >= REACH && |was| == EXT_SIZE && k < NAME_SIZE
    ensures |Parse(f, was).name| == NAME_SIZE && Parse(f, was).name[k] != DOT
  {
  }

  /** A padded field is a string without zeros, and zeros after it. */
  lemma FieldWord(field: Bytes) returns (w: Bytes)
    requires Padded(field)
    ensures |w| <= |field| && 0 !in w && field == PadTo(w, |field|) && (|w| < |field| <==> 0 in field)
  {
    assert (field + [0])[|field|] == 0;
    var n := CLen(field + [0]);
    w := field[..n];
    assert forall k :: 0 <= k < n ==> field[k] == (field + [0])[k];
    assert n < |field| ==> field[n] == (field + [0])[n];
  }

  /** A name of eight bytes runs on into the memory after it. */
  lemma LongText(name: Bytes, beyond: Bytes)
    requires |name| == NAME_SIZE && 0 !in name && Terminated(beyond)
    ensures Terminated(name + beyond) && CStr(name + beyond) == name + CStr(beyond)
  {
    var mem, n := name + beyond, NAME_SIZE + CLen(beyond);
    assert mem[n] == 0;
    assert forall k :: 0 <= k < NAME_SIZE ==> mem[k] == name[k];
    assert forall k :: NAME_SIZE <= k < n ==> mem[k] == beyond[k - NAME_SIZE];
    CLenUnique(mem, n);
  }

  /** A full name that goes on parses back exactly when a dot, the extension and a zero follow. */
  lemma FullNameParses(f: Bytes, name: Bytes, ext: Bytes, was: Bytes)
    requires |name| == NAME_SIZE && 0 !in name && DOT !in name && |ext| == EXT_SIZE && |was| == EXT_SIZE
    requires |f| >= REACH && f[..NAME_SIZE] == name && f[NAME_SIZE] != 0
    ensures Parse(f, was) == Parsed(name, ext, 0)
            <==> f[8] == DOT && f[9] == ext[0] && f[10] == ext[1] && f[11] == ext[2] && f[12] == 0
  {
    assert forall k :: 0 <= k < NAME_SIZE ==> f[k] == name[k] && f[k] != 0 && f[k] != DOT;
    assert NameEnd(f, 0) == NAME_SIZE && name + Zeros(0) == name;
    assert f[9..12] == [f[9], f[10], f[11]] && ext == [ext[0], ext[1], ext[2]];
  }

  /** With stray text b after a full name without a dot, only the text "." and no extension parse back. */
  lemma StrayParsesIff(name: Bytes, ext: Bytes, b: Bytes, f: Bytes, n: nat, was: Bytes)
    requires |name| == NAME_SIZE && 0 !in name && DOT !in name && |ext| == EXT_SIZE && Padded(ext)
    requires b != [] && 0 !in b && |f| >= REACH && |was| == EXT_SIZE
    requires f == name + b + (if ext[0] != 0 then [DOT] + ext else []) + Zeros(n)
    ensures Parse(f, was) == Parsed(name, ext, 0) <==> ext[0] == 0 && b == [DOT]
  {
    assert f[..NAME_SIZE] == name && f[NAME_SIZE] == b[0];
    FullNameParses(f, name, ext, was);
    if |b| == 1 {
      assert ext[0] != 0 ==> f[9] == DOT && f[10] == ext[0] && f[11] == ext[1] && f[12] == ext[2];
      assert ext[0] == 0 ==> f[9] == f[10] == f[11] == f[12] == 0;
    } else {
      assert f[9] == b[1];
      assert |b| == 2 && ext[0] != 0 ==> f[10] == DOT && f[11] == ext[0] && f[12] == ext[1];
      assert |b| == 3 && ext[0] != 0 ==> f[12] == ext[0];
      assert |b| == 4 && ext[0] != 0 ==> f[12] == DOT;
      assert |b| > 4 ==> f[12] == b[4];
    }
  }

  /** Parsing what the listing shows of an entry gives the entry back exactly when its name has no dot
      and strlen stops inside the copy of the name, or right behind it, or at a stray "." that stands
      for the empty extension. */
  lemma ListedNameParsesIff(name: Bytes, ext: Bytes, beyond: Bytes, n: nat, was: Bytes)
    requires |name| == NAME_SIZE && |ext| == EXT_SIZE && Padded(name) && Padded(ext) && Terminated(beyond)
    requires |Typed(name, ext, beyond, n)| >= REACH && n > 0 && |was| == EXT_SIZE
    ensures Parse(Typed(name, ext, beyond, n), was) == Parsed(name, ext, 0) <==>
              DOT !in name && (0 in name || beyond[0] == 0 || (ext[0] == 0 && CStr(beyond) == [DOT]))
  {
    var f := Typed(name, ext, beyond, n);
    if DOT in name {
      var k :| 0 <= k < NAME_SIZE && name[k] == DOT;
      NoDotCopied(f, was, k);
    } else if 0 in name || beyond[0] == 0 {
      var w := FieldWord(name);
      var e := FieldWord(ext);
      TypedText(name, ext, beyond, n, w, e);
      assert forall k :: 0 <= k < |w| ==> w[k] == name[k];
      TextParts(w, e);
      ParseOkIff(f, was);
    } else {
      LongText(name, beyond);
      assert CLen(beyond) > 0;
      StrayParsesIff(name, ext, CStr(beyond), f, n, was);
    }
  }

  /** An ordinary name that is lost: "abcdefgh" with an "x" behind the copy is shown as "abcdefghx",
      which the parser turns down. */
  lemma FullNameLost(n: nat, was: Bytes)
    requires n >= 4 && |was| == EXT_SIZE
    ensures var name: Bytes := [97, 98, 99, 100, 101, 102, 103, 104];
            var f := Typed(name, NO_EXT, [120, 0], n);
            |f| >= REACH && Parse(f, was).code == 1
  {
    var name: Bytes := [97, 98, 99, 100, 101, 102, 103, 104];
    LongText(name, [120, 0]);
    CLenUnique([120, 0], 1);
    var f := Typed(name, NO_EXT, [120, 0], n);
    assert f == name + [120] + Zeros(n);
    assert forall k :: 0 <= k < NAME_SIZE ==> f[k] == name[k];
    assert NameEnd(f, 0) == NAME_SIZE && f[NAME_SIZE] == 120;
  }
}
