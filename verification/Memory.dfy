/** Raw memory: bytes, little-endian integers, C strings and the copying routines of
    src/stdlib/string.c. */
module Memory {

  type byte = x: int | 0 <= x < 256
  type u32 = x: int | 0 <= x < 0x1_0000_0000
  type Bytes = seq<byte>

  function Zeros(n: nat): (r: Bytes)
    ensures |r| == n
    ensures forall k :: 0 <= k < n ==> r[k] == 0
  {
    seq(n, _ => 0)
  }

  /** `s` with the bytes from index `at` on replaced by `b`. */
  function Overwrite(s: Bytes, at: nat, b: Bytes): (r: Bytes)
    requires at + |b| <= |s|
    ensures |r| == |s|
    ensures forall k :: 0 <= k < |s| ==> r[k] == if at <= k < at + |b| then b[k - at] else s[k]
  {
    s[..at] + b + s[at + |b|..]
  }

  lemma OverwriteMore(s: Bytes, at: nat, b: Bytes, c: Bytes)
    requires at + |b| + |c| <= |s|
    ensures Overwrite(Overwrite(s, at, b), at + |b|, c) == Overwrite(s, at, b + c)
  {
  }

  lemma SliceMore(s: Bytes, from: nat, mid: nat, to: nat)
    requires from <= mid <= to <= |s|
    ensures s[from..mid] + s[mid..to] == s[from..to]
  {
  }

  // ----- Little-endian integers

  /** The number that bytes stand for, lowest first. */
  function LittleEndian(b: Bytes): (r: nat)
    ensures |b| == 1 ==> r < 0x100
    ensures |b| == 2 ==> r < 0x1_0000
  {
    if b == [] then 0 else b[0] + 0x100 * LittleEndian(b[1..])
  }

  function Le16(b0: byte, b1: byte): (r: nat)
    ensures r < 0x1_0000
  {
    LittleEndian([b0, b1])
  }

  function Le32(b: Bytes): (r: u32)
    requires |b| == 4
  {
    b[0] as int + 0x100 * b[1] as int + 0x1_0000 * b[2] as int + 0x100_0000 * b[3] as int
  }

  function ToLe16(x: nat): (r: Bytes)
    requires x < 0x1_0000
    ensures |r| == 2 && Le16(r[0], r[1]) == x
  {
    var lo: byte, hi: byte := x % 0x100, x / 0x100;
    assert [lo, hi][1..] == [hi];
    assert LittleEndian([hi]) == hi;
    [lo, hi]
  }

  function ToLe32(x: u32): (r: Bytes)
    ensures |r| == 4 && Le32(r) == x
    ensures x < 0x1_0000 ==> r[2] == 0 && r[3] == 0
  {
    var x1 := x / 0x100;
    var x2 := x1 / 0x100;
    [x % 0x100, x1 % 0x100, x2 % 0x100, x2 / 0x100]
  }

  // ----- C strings

  /** A memory area in which strlen stops. */
  predicate Terminated(mem: Bytes) { 0 in mem }

  /** The length of the C string at the start of `mem`. */
  function CLen(mem: Bytes): (n: nat)
    requires Terminated(mem)
    ensures n < |mem| && mem[n] == 0
    ensures forall k :: 0 <= k < n ==> mem[k] != 0
  {
    if mem[0] == 0 then 0 else 1 + CLen(mem[1..])
  }

  /** The C string itself, without its terminator. */
  function CStr(mem: Bytes): (s: Bytes)
    requires Terminated(mem)
    ensures 0 !in s
  {
    mem[..CLen(mem)]
  }

  lemma CLenUnique(mem: Bytes, n: nat)
    requires n < |mem| && mem[n] == 0
    requires forall k :: 0 <= k < n ==> mem[k] != 0
    ensures Terminated(mem) && CLen(mem) == n
  {
  }

  /** A fixed-width field holding a C string: once a byte is zero, all later ones are. */
  predicate Padded(field: Bytes) {
    forall j, k :: 0 <= j < k < |field| && field[j] == 0 ==> field[k] == 0
  }

  method StrLen(str: Bytes) returns (length: nat)
    requires Terminated(str)
    ensures length == CLen(str)
  {
    length := 0;
    while str[length] != 0
      invariant length <= CLen(str)
      decreases CLen(str) - length
    {
      length := length + 1;
    }
  }

  /** memcmp may be asked for more bytes than a buffer has, as long as it meets a difference first. */
  predicate Comparable(s1: Bytes, s2: Bytes, n: nat) {
    (n <= |s1| && n <= |s2|) || exists k :: 0 <= k < n && k < |s1| && k < |s2| && s1[k] != s2[k]
  }

  /** True when the first `n` bytes agree. */
  predicate SamePrefix(s1: Bytes, s2: Bytes, n: nat) {
    n <= |s1| && n <= |s2| && s1[..n] == s2[..n]
  }

  method MemCmp(s1: Bytes, s2: Bytes, n: nat) returns (r: int)
    requires Comparable(s1, s2, n)
    ensures r == 0 <==> SamePrefix(s1, s2, n)
    ensures r != 0 ==> exists k :: 0 <= k < n && k < |s1| && k < |s2| && s1[..k] == s2[..k]
                              && s1[k] != s2[k] && r == if s1[k] < s2[k] then -1 else 1
  {
    var i := 0;
    while i < n
      invariant 0 <= i <= n
      invariant forall k :: 0 <= k < i ==> k < |s1| && k < |s2| && s1[k] == s2[k]
    {
      if s1[i] < s2[i] {
        assert s1[..i] == s2[..i];
        return -1;
      } else if s1[i] > s2[i] {
        assert s1[..i] == s2[..i];
        return 1;
      }
      i := i + 1;
    }
    if n > 0 { assert n - 1 < |s1| && n - 1 < |s2|; }
    return 0;
  }

  method MemSet(a: array<byte>, at: nat, c: byte, n: nat)
    requires at + n <= a.Length
    modifies a
    ensures a[..] == Overwrite(old(a[..]), at, seq(n, _ => c))
  {
    for i := 0 to n
      invariant forall k :: 0 <= k < a.Length ==> a[k] == if at <= k < at + i then c else old(a[k])
    {
      a[at + i] := c;
    }
  }

  method MemCpy(a: array<byte>, at: nat, src: Bytes, n: nat)
    requires n <= |src| && at + n <= a.Length
    modifies a
    ensures a[..] == Overwrite(old(a[..]), at, src[..n])
  {
    for i := 0 to n
      invariant forall k :: 0 <= k < a.Length ==> a[k] == if at <= k < at + i then src[k - at] else old(a[k])
    {
      a[at + i] := src[i];
    }
  }
}
