/** The initramfs: a walk over a ustar archive held in memory. */
module Ustar {
  type Byte = b: int | 0 <= b < 256

  const WORD := 0x1_0000_0000
  const BLOCK := 512
  const HEADER_READ := 262
  const SLASH: Byte := 47
  const ZERO: Byte := 48
  const FILE: Byte := 48
  const DIRECTORY: Byte := 53
  const SIGNATURE: seq<Byte> := [117, 115, 116, 97, 114]

  datatype Entry = Entry(name: seq<Byte>, kind: Byte, data: nat, size: nat)

  /** `Overrun` stands for a read past the end of the image. */
  datatype Outcome = Found(entries: seq<Entry>) | Overrun

  // ---------------------------------------------------------------------
  // Octal fields
  // ---------------------------------------------------------------------

  /** `char` is signed on x86-64. */
  function Signed(b: Byte): (r: int)
  {
    if b < 128 then b else b - 256
  }

  /** The number a digit string stands for, with no bound on its width. */
  function Octal(s: seq<Byte>): (r: int)
  {
    if s == [] then 0 else Octal(s[..|s| - 1]) * 8 + Signed(s[|s| - 1]) - ZERO
  }

  /** What one byte adds, digit or not: bytes from 128 on are negative. */
  lemma OctalOfByte(b: Byte)
    ensures Octal([b]) == if b < 128 then b - 48 else b - 304
  {
    assert [b][..0] == [];
  }

  /** `k` octal digits of `n`, most significant first. */
  function Digits(n: nat, k: nat): (r: seq<Byte>)
    ensures |r| == k
  {
    if k == 0 then [] else Digits(n / 8, k - 1) + [48 + n % 8]
  }

  function Power(k: nat): (r: nat)
  {
    if k == 0 then 1 else 8 * Power(k - 1)
  }

  lemma {:induction false} OctalOfDigits(n: nat, k: nat)
    requires n < Power(k)
    ensures Octal(Digits(n, k)) == n
    ensures forall i :: 0 <= i < k ==> 48 <= Digits(n, k)[i] <= 55
  {
    if k > 0 {
      OctalOfDigits(n / 8, k - 1);
      var d := Digits(n, k);
      assert d[..k - 1] == Digits(n / 8, k - 1);
    }
  }

  /** `parseOctal`: an `unsigned` accumulator that wraps at every step still ends at the value of the
      digits modulo 2^32. */
  method ParseOctal(s: seq<Byte>) returns (result: nat)
    ensures result < 0x1_0000_0000 && result == Octal(s) % 0x1_0000_0000
  {
    result := 0;
    for i := 0 to |s|
      invariant result < WORD && result == Octal(s[..i]) % WORD
    {
      assert s[..i + 1][..i] == s[..i];
      WrapOnce(Octal(s[..i]), Signed(s[i]) - ZERO);
      result := result * 8 % WORD;
      result := (result + Signed(s[i]) - ZERO) % WORD;
    }
    assert s[..|s|] == s;
  }

  lemma WrapOnce(n: int, d: int)
    ensures (n % WORD * 8 % WORD + d) % WORD == (n * 8 + d) % WORD
  {
    var q := n / WORD;
    assert n == q * WORD + n % WORD;
    var m := n % WORD * 8;
    var p := m / WORD;
    assert n * 8 + d == (m % WORD + d) + (8 * q + p) * WORD;
    Wrapped(m % WORD + d, 8 * q + p);
  }

  lemma Wrapped(a: int, k: int)
    ensures (a + k * WORD) % WORD == a % WORD
  {
    var b := a + k * WORD;
    assert a / WORD + k - b / WORD == 0 by {
      assert (a / WORD + k - b / WORD) * WORD == b % WORD - a % WORD;
    }
  }

  /** A size survives the 11-digit field exactly when it fits an `unsigned`. */
  lemma SizeSurvives(n: nat)
    requires n < Power(11)
    ensures Octal(Digits(n, 11)) % WORD == n <==> n < WORD
  {
    OctalOfDigits(n, 11);
  }

  // ---------------------------------------------------------------------
  // The walk
  // ---------------------------------------------------------------------

  /** The index of the first NUL at or after `at`, or the end of the image. */
  function Terminator(image: seq<Byte>, at: nat): (r: nat)
    requires at <= |image|
    ensures at <= r <= |image|
    ensures r < |image| ==> image[r] == 0
    ensures forall i :: at <= i < r ==> image[i] != 0
    decreases |image| - at
  {
    if at == |image| || image[at] == 0 then at else Terminator(image, at + 1)
  }

  function Stripped(name: seq<Byte>): (r: seq<Byte>)
  {
    if name != [] && name[|name| - 1] == SLASH then name[..|name| - 1] else name
  }

  predicate Shown(kind: Byte)
  {
    kind == FILE || kind == DIRECTORY
  }

  function SizeAt(image: seq<Byte>, at: nat): (r: nat)
    requires at + HEADER_READ <= |image|
  {
    Octal(image[at + 124..at + 135]) % WORD
  }

  function Next(at: nat, size: nat): (r: nat)
    ensures r >= at + BLOCK + size && r < at + 2 * BLOCK + size
    ensures (r - at) % BLOCK == 0
  {
    at + ((size + 511) / 512 * 512 + 512)
  }

  function Prepend(e: Entry, o: Outcome): (r: Outcome)
  {
    match o
    case Found(es) => Found([e] + es)
    case Overrun => Overrun
  }

  /** What the walk collects from `at` on. */
  function Walk(image: seq<Byte>, at: nat): (r: Outcome)
    decreases if at <= |image| then |image| - at else 0
  {
    if at + HEADER_READ > |image| then Overrun
    else if image[at + 257..at + 262] != SIGNATURE then Found([])
    else
      var size := SizeAt(image, at);
      var kind := image[at + 156];
      if !Shown(kind) then Walk(image, Next(at, size))
      else
        var end := Terminator(image, at);
        if end == |image| then Overrun
        else Prepend(Entry(Stripped(image[at..end]), kind, at + BLOCK, size), Walk(image, Next(at, size)))
  }

  /** `strlen`, as far as the image goes. */
  method Strlen(image: seq<Byte>, at: nat) returns (n: nat)
    requires at <= |image|
    ensures at + n == Terminator(image, at)
  {
    n := 0;
    while at + n < |image| && image[at + n] != 0
      invariant at + n <= |image|
      invariant Terminator(image, at) == Terminator(image, at + n)
    {
      n := n + 1;
    }
  }

  /** What an entry's file holds. */
  predicate InImage(image: seq<Byte>, e: Entry)
  {
    e.data + e.size <= |image|
  }

  function Contents(image: seq<Byte>, e: Entry): (r: seq<Byte>)
    requires InImage(image, e)
    ensures |r| == e.size
  {
    image[e.data..e.data + e.size]
  }

  // ---------------------------------------------------------------------
  // Reading
  // ---------------------------------------------------------------------

  /** The bytes one read delivers. */
  function Chunk(file: seq<Byte>, offset: nat, length: nat): (r: seq<Byte>)
    ensures |r| <= length
    ensures |r| == 0 <==> length == 0 || |file| <= offset
  {
    if offset >= |file| then []
    else if offset + length >= |file| then file[offset..]
    else file[offset..offset + length]
  }

  /** Reads of the given lengths, each starting where the one before ended. */
  function Chunks(file: seq<Byte>, offset: nat, lengths: seq<nat>): (r: seq<Byte>)
    decreases |lengths|
  {
    if lengths == [] then []
    else
      var c := Chunk(file, offset, lengths[0]);
      c + Chunks(file, offset + |c|, lengths[1..])
  }

  function Sum(lengths: seq<nat>): (r: nat)
  {
    if lengths == [] then 0 else lengths[0] + Sum(lengths[1..])
  }

  /** The `n` bytes from `a` on, or as many as there are. */
  function Between(file: seq<Byte>, a: nat, n: nat): (r: seq<Byte>)
    requires a <= |file|
    ensures a + |r| <= |file|
  {
    if a + n < |file| then file[a..a + n] else file[a..]
  }

  lemma BetweenAdds(file: seq<Byte>, a: nat, m: nat, n: nat)
    requires a <= |file|
    ensures var c := Between(file, a, m); c + Between(file, a + |c|, n) == Between(file, a, m + n)
  {}

  lemma NoBytes(file: seq<Byte>, a: nat)
    requires a <= |file|
    ensures Between(file, a, 0) == []
  {}

  lemma ChunkIs(file: seq<Byte>, offset: nat, length: nat)
    requires offset <= |file|
    ensures Chunk(file, offset, length) == Between(file, offset, length)
  {}

  lemma {:induction false} ChunksAre(file: seq<Byte>, offset: nat, lengths: seq<nat>)
    requires offset <= |file|
    ensures Chunks(file, offset, lengths) == Between(file, offset, Sum(lengths))
    decreases |lengths|
  {
    hide Chunk, Between;
    if lengths == [] {
      NoBytes(file, offset);
    } else {
      var c, next := Chunk(file, offset, lengths[0]), lengths[1..];
      ChunkIs(file, offset, lengths[0]);
      ChunksAre(file, offset + |c|, next);
      BetweenAdds(file, offset, lengths[0], Sum(next));
      assert Chunks(file, offset, lengths) == c + Chunks(file, offset + |c|, next);
    }
  }

  /** Reading in any chunking rebuilds the file exactly when the chunks ask for all of it. */
  lemma ChunkingRebuilds(file: seq<Byte>, lengths: seq<nat>)
    ensures Chunks(file, 0, lengths) == file <==> Sum(lengths) >= |file|
  {
    ChunksAre(file, 0, lengths);
  }

  // ---------------------------------------------------------------------
  // The provider
  // ---------------------------------------------------------------------

  predicate SignedHere(image: seq<Byte>, at: nat)
  {
    at + HEADER_READ <= |image| && image[at + 257..at + 262] == SIGNATURE
  }

  ghost function Joined(es: seq<Entry>, o: Outcome): Outcome
  {
    match o
    case Found(rest) => Found(es + rest)
    case Overrun => Overrun
  }

  lemma WalkEnds(image: seq<Byte>, at: nat)
    requires !SignedHere(image, at)
    ensures Walk(image, at) == if at + HEADER_READ <= |image| then Found([]) else Overrun
  {
  }

  lemma WalkOn(image: seq<Byte>, at: nat, es: seq<Entry>)
    requires SignedHere(image, at)
    ensures var size, kind, end := Octal(image[at + 124..at + 135]) % WORD, image[at + 156], Terminator(image, at);
            Joined(es, Walk(image, at)) ==
            if !Shown(kind) then Joined(es, Walk(image, Next(at, size)))
            else if end == |image| then Overrun
            else Joined(es + [Entry(Stripped(image[at..end]), kind, at + BLOCK, size)], Walk(image, Next(at, size)))
  {
    hide Next, Terminator, Octal, Stripped;
    var size := SizeAt(image, at);
    var end := Terminator(image, at);
    var rest := Walk(image, Next(at, size));
    if rest.Found? && end < |image| {
      var e := Entry(Stripped(image[at..end]), image[at + 156], at + BLOCK, size);
      assert es + ([e] + rest.entries) == (es + [e]) + rest.entries;
    }
  }

  class InitramfsFsProvider {
    const image: seq<Byte>
    var entries: seq<Entry>
    /** False once the walk has needed a byte past the image. */
    var inBounds: bool

    constructor (archive: seq<Byte>)
      ensures image == archive
      ensures Walk(archive, 0) == if inBounds then Found(entries) else Overrun
    {
      hide Walk, Next, SizeAt, Terminator, Shown, Octal;
      image := archive;
      entries := [];
      inBounds := true;
      new;
      var at := 0;
      while SignedHere(archive, at)
        invariant inBounds && Walk(archive, 0) == Joined(entries, Walk(archive, at))
        decreases if at <= |archive| then |archive| - at else 0
      {
        WalkOn(archive, at, entries);
        var size := ParseOctal(archive[at + 124..at + 135]);
        if Shown(archive[at + 156]) {
          var n := Strlen(archive, at);
          if at + n == |archive| {
            inBounds := false;
            return;
          }
          var name := archive[at..at + n];
          if n > 0 && name[n - 1] == SLASH {
            name := name[..n - 1];
          }
          entries := entries + [Entry(name, archive[at + 156], at + BLOCK, size)];
        }
        at := Next(at, size);
      }
      WalkEnds(archive, at);
      inBounds := at + HEADER_READ <= |archive|;
    }

    /** Copies at most `length` bytes of an entry into the buffer and says how many. */
    method Read(e: Entry, offset: nat, length: nat, buffer: array<Byte>) returns (n: nat)
      requires InImage(image, e)
      requires |Chunk(Contents(image, e), offset, length)| <= buffer.Length
      modifies buffer
      ensures n == if e.size <= offset then 0 else if e.size - offset < length then e.size - offset else length
      ensures n <= buffer.Length && forall i :: 0 <= i < n ==> buffer[i] == image[e.data + offset + i]
      ensures buffer[..n] == Chunk(Contents(image, e), offset, length)
      ensures buffer[n..] == old(buffer[n..])
    {
      hide Chunk;
      n := 0;
      ghost var file := Contents(image, e);
      if offset < e.size {
        ChunkIs(file, offset, length);
        var count := if e.size - offset < length then e.size - offset else length;
        while n < count
          invariant n <= count <= buffer.Length
          invariant forall i :: 0 <= i < n ==> buffer[i] == file[offset + i]
          invariant forall i :: n <= i < buffer.Length ==> buffer[i] == old(buffer[i])
        {
          buffer[n] := image[e.data + offset + n];
          n := n + 1;
        }
        assert buffer[..n] == file[offset..offset + n];
      }
    }
  }
}
