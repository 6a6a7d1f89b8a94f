/** Archives in the ustar interchange format of POSIX.1-2017 (the pax utility), and the proof that
    the walk undoes their serialisation. */
module UstarArchive {
  import opened Ustar

  /** One archive member. The walk ignores the fields after `content`; they may hold anything. */
  datatype Member = Member(
    name: seq<Byte>, prefix: seq<Byte>, kind: Byte, content: seq<Byte>,
    mode: seq<Byte>, ids: seq<Byte>, times: seq<Byte>, link: seq<Byte>, owner: seq<Byte>,
    unused: seq<Byte>, slack: seq<Byte>)

  /** The magic string `ustar`. */
  const USTAR: seq<Byte> := [117, 115, 116, 97, 114]

  predicate NoNul(s: seq<Byte>)
  {
    forall i :: 0 <= i < |s| ==> s[i] != 0
  }

  predicate WellFormed(m: Member)
  {
    && NoNul(m.name) && |m.name| <= 100
    && NoNul(m.prefix) && |m.prefix| <= 155
    && |m.content| < Power(11)
    && |m.mode| == 8 && (forall i :: 0 <= i < 7 ==> 48 <= m.mode[i] < 56)
    && |m.ids| == 16 && |m.times| == 21 && |m.link| == 100 && |m.owner| == 83 && |m.unused| == 12
    && |m.slack| < 512 && (|m.content| + |m.slack|) % 512 == 0
  }

  function Zeros(n: nat): (r: seq<Byte>)
    ensures |r| == n && forall i :: 0 <= i < n ==> r[i] == 0
  {
    if n == 0 then [] else [0] + Zeros(n - 1)
  }

  function Padded(s: seq<Byte>, n: nat): (r: seq<Byte>)
    requires |s| <= n
    ensures |r| == n
  {
    s + Zeros(n - |s|)
  }

  function Header(m: Member): (h: seq<Byte>)
    requires WellFormed(m)
  {
    Padded(m.name, 100) + m.mode + m.ids + Digits(|m.content|, 11) + m.times + [m.kind] + m.link
    + USTAR + m.owner + Padded(m.prefix, 155) + m.unused
  }

  function Record(m: Member): (r: seq<Byte>)
    requires WellFormed(m)
  {
    Header(m) + m.content + m.slack
  }

  function Archive(ms: seq<Member>): (r: seq<Byte>)
    requires forall m :: m in ms ==> WellFormed(m)
  {
    if ms == [] then [] else Record(ms[0]) + Archive(ms[1..])
  }

  /** What follows the last member; two blocks of zeros in the standard. */
  predicate EndsArchive(t: seq<Byte>)
  {
    |t| >= 262 && t[257..262] != USTAR
  }

  lemma ZeroBlocksEnd()
    ensures EndsArchive(Zeros(1024))
  {
    assert Zeros(1024)[257..262][0] == 0;
  }

  // ---------------------------------------------------------------------
  // What an archive means
  // ---------------------------------------------------------------------

  function FullName(m: Member): (r: seq<Byte>)
  {
    if m.prefix == [] then m.name else m.prefix + [47] + m.name
  }

  /** Type flags `0` and `5`. */
  predicate FileOrDirectory(m: Member)
  {
    m.kind == 48 || m.kind == 53
  }

  function ShownOf(ms: seq<Member>): (r: seq<Member>)
  {
    if ms == [] then []
    else if FileOrDirectory(ms[0]) then [ms[0]] + ShownOf(ms[1..])
    else ShownOf(ms[1..])
  }

  /** `short` is the full name without the slash it may end in. */
  predicate NamedAs(short: seq<Byte>, full: seq<Byte>)
  {
    if full != [] && full[|full| - 1] == 47 then full == short + [47] else full == short
  }

  lemma StrippedIs(short: seq<Byte>, full: seq<Byte>)
    ensures NamedAs(short, full) <==> short == Stripped(full)
  {}

  /** The entry names the member as the standard does, less one trailing slash, and holds its data. */
  predicate Describes(image: seq<Byte>, e: Entry, m: Member)
  {
    NamedAs(e.name, FullName(m)) && e.kind == m.kind && InImage(image, e) && Contents(image, e) == m.content
  }

  predicate DescribesAll(image: seq<Byte>, o: Outcome, ms: seq<Member>)
  {
    && o.Found?
    && |o.entries| == |ms|
    && forall i :: 0 <= i < |ms| ==> Describes(image, o.entries[i], ms[i])
  }

  /** The members the walk is made for: no prefix, a terminated name, a size that fits an `unsigned`. */
  predicate Plain(m: Member)
  {
    m.prefix == [] && |m.name| < 100 && |m.content| < 0x1_0000_0000
  }

  // ---------------------------------------------------------------------
  // One record
  // ---------------------------------------------------------------------

  lemma Placed(whole: seq<Byte>, a: seq<Byte>, f: seq<Byte>, b: seq<Byte>)
    requires whole == a + f + b
    ensures |whole| == |a| + |f| + |b| && whole[|a|..|a| + |f|] == f
  {
  }

  lemma HeaderFields(m: Member)
    requires WellFormed(m)
    ensures var h := Header(m);
            && |h| == 512 && h[..100] == Padded(m.name, 100) && h[100..108] == m.mode
            && h[124..135] == Digits(|m.content|, 11) && h[156] == m.kind && h[257..262] == USTAR
  {
    hide Padded, Digits, Next, Power, NoNul, USTAR;
    var h := Header(m);
    var name, size, prefix, signature := Padded(m.name, 100), Digits(|m.content|, 11), Padded(m.prefix, 155), USTAR;
    assert |signature| == 5 by { SignatureLength(); }
    Joined11(h, name, m.mode, m.ids, size, m.times, [m.kind], m.link, signature, m.owner, prefix, m.unused);
    assert h[156] == h[156..157][0];
  }

  lemma SignatureLength()
    ensures |USTAR| == 5
  {
  }

  /** The fields of a header, each at the sum of the lengths before it. */
  lemma Joined11(h: seq<Byte>, name: seq<Byte>, mode: seq<Byte>, ids: seq<Byte>, size: seq<Byte>, times: seq<Byte>,
      kind: seq<Byte>, link: seq<Byte>, signature: seq<Byte>, owner: seq<Byte>, prefix: seq<Byte>, unused: seq<Byte>)
    requires |name| == |link| == 100 && |mode| == 8 && |ids| == 16 && |size| == 11 && |times| == 21 && |kind| == 1
    requires |signature| == 5 && |owner| == 83 && |prefix| == 155 && |unused| == 12
    requires h == name + mode + ids + size + times + kind + link + signature + owner + prefix + unused
    ensures |h| == BLOCK && h[..100] == name && h[100..108] == mode && h[124..135] == size
    ensures h[156..157] == kind && h[257..262] == signature
  {
    var e := signature + owner + prefix + unused;
    var d := kind + link + e;
    var c := size + times + d;
    var b := mode + ids + c;
    var front := name + mode + ids + size + times + kind + link;
    assert h == front + signature + (owner + prefix + unused);
    assert h == name + mode + ids + size + times + kind + (link + e);
    assert h == name + mode + ids + size + (times + d);
    assert h == name + mode + (ids + c);
    assert h == name + b;
  }

  /** `h` stands in the image at `at`. */
  predicate Holds(image: seq<Byte>, at: nat, h: seq<Byte>)
  {
    at + |h| <= |image| && image[at..at + |h|] == h
  }

  lemma Slice(image: seq<Byte>, at: nat, h: seq<Byte>, i: nat, j: nat)
    requires Holds(image, at, h) && i <= j <= |h|
    ensures image[at + i..at + j] == h[i..j]
    ensures i < j ==> image[at + i] == h[i]
  {
    forall k | i <= k < j
      ensures image[at + k] == h[k]
    {
      assert image[at..at + |h|][k] == h[k];
    }
  }

  lemma HeaderRead(image: seq<Byte>, at: nat, m: Member)
    requires WellFormed(m) && Holds(image, at, Header(m))
    ensures SignedHere(image, at) && image[at + 257..at + 262] == [117, 115, 116, 97, 114]
    ensures image[at + 156] == m.kind && (Shown(m.kind) <==> m.kind == 48 || m.kind == 53)
    ensures SizeAt(image, at) == |m.content| % 0x1_0000_0000
  {
    hide Header, Digits, Octal, Power, NoNul, Next;
    HeaderFields(m);
    var h := Header(m);
    Slice(image, at, h, 257, 262);
    Slice(image, at, h, 156, 157);
    Slice(image, at, h, 124, 135);
    OctalOfDigits(|m.content|, 11);
  }

  /** A terminated name is read back; one of 100 bytes runs on into the mode digits. */
  lemma NameRead(image: seq<Byte>, at: nat, m: Member)
    requires WellFormed(m) && Holds(image, at, Header(m))
    ensures |m.name| < 100 ==> Terminator(image, at) == at + |m.name| && image[at..at + |m.name|] == m.name
    ensures |m.name| == 100 ==> Terminator(image, at) >= at + 107
  {
    hide Header, Digits, Octal, Power, Next;
    HeaderFields(m);
    var h := Header(m);
    var n := |m.name|;
    Slice(image, at, h, 0, 100);
    Slice(image, at, h, 100, 108);
    assert image[at..at + 100][..n] == m.name;
    forall i | at <= i < at + n
      ensures image[i] != 0
    {
      assert image[i] == image[at..at + 100][i - at] == m.name[i - at];
    }
    if n < 100 {
      assert image[at + n] == image[at..at + 100][n] == 0;
    } else {
      forall i | at + 100 <= i < at + 107
        ensures image[i] != 0
      {
        assert image[i] == image[at + 100..at + 108][i - at - 100] == m.mode[i - at - 100];
      }
    }
  }

  /** The entry the walk makes of a plain member describes it, and of another it does not. */
  lemma EntryRead(image: seq<Byte>, at: nat, m: Member, end: nat)
    requires WellFormed(m) && Holds(image, at, Header(m)) && Holds(image, at + BLOCK, m.content)
    requires end == Terminator(image, at) < |image|
    ensures var e := Entry(Stripped(image[at..end]), m.kind, at + BLOCK, |m.content| % WORD);
            && (Plain(m) ==> Describes(image, e, m))
            && (OneLimit(m) && Describes(image, e, m) ==> Plain(m))
  {
    hide Header, Terminator, NoNul, Next, Power;
    NameRead(image, at, m);
    var e := Entry(Stripped(image[at..end]), m.kind, at + BLOCK, |m.content| % WORD);
    StrippedIs(e.name, FullName(m));
    if |m.name| == 100 && OneLimit(m) {
      assert |e.name| >= 106;
    } else if m.prefix != [] && |m.name| < 100 {
      assert |Stripped(FullName(m))| > |m.name|;
    }
  }

  // ---------------------------------------------------------------------
  // The round trip
  // ---------------------------------------------------------------------

  /** A name either fills its field or is continued by a prefix, not both. */
  predicate OneLimit(m: Member)
  {
    m.prefix == [] || |m.name| < 100
  }

  /** Members of types the walk skips must still have a size it can step over. */
  predicate Fit(ms: seq<Member>)
  {
    forall m :: m in ms ==> WellFormed(m) && (!FileOrDirectory(m) ==> |m.content| < 0x1_0000_0000)
  }

  predicate AllPlain(ms: seq<Member>)
  {
    forall m :: m in ms ==> Plain(m)
  }

  predicate OneLimits(ms: seq<Member>)
  {
    forall m :: m in ms ==> OneLimit(m)
  }

  /** The walk steps over the header, the content and the slack that fills its last block. */
  lemma NextIs(m: Member, at: nat)
    requires WellFormed(m)
    ensures Next(at, |m.content|) == at + 512 + |m.content| + |m.slack|
  {
    hide Power, NoNul;
    var q := (|m.content| + |m.slack|) / 512;
    assert |m.content| + 511 == q * 512 + (511 - |m.slack|);
    assert (|m.content| + 511) / 512 == q;
  }

  lemma StepOver(pre: seq<Byte>, ms: seq<Member>, trailer: seq<Byte>)
    requires Fit(ms) && ms != []
    ensures var image, m := pre + Archive(ms) + trailer, ms[0];
            && Holds(image, |pre|, Header(m)) && Holds(image, |pre| + BLOCK, m.content)
            && image == (pre + Record(m)) + Archive(ms[1..]) + trailer
            && |pre + Record(m)| == Next(|pre|, |m.content|)
  {
    hide Header, Digits, Power, NoNul, Next, WellFormed, OneLimit;
    var m := ms[0];
    HeaderFields(m);
    NextIs(m, |pre|);
    var image, h, rest := pre + Archive(ms) + trailer, Header(m), Archive(ms[1..]);
    Regrouped(pre, h, m.content, m.slack, rest, trailer);
    Placed(image, pre, h, m.content + m.slack + rest + trailer);
    Placed(image, pre + h, m.content, m.slack + rest + trailer);
  }

  lemma Regrouped(a: seq<Byte>, b: seq<Byte>, c: seq<Byte>, d: seq<Byte>, e: seq<Byte>, f: seq<Byte>)
    ensures var whole := a + (b + c + d + e) + f;
            && whole == a + b + (c + d + e + f)
            && whole == (a + b) + c + (d + e + f)
            && whole == (a + (b + c + d)) + e + f
  {
  }

  lemma {:induction false} WalkRecords(pre: seq<Byte>, ms: seq<Member>, trailer: seq<Byte>)
    requires Fit(ms) && EndsArchive(trailer)
    ensures Sound(pre + Archive(ms) + trailer, |pre|, ShownOf(ms))
    decreases |ms|
  {
    hide WellFormed, OneLimit, OneLimits, Header, Record, Terminator, Stripped, Next, SizeAt, Describes, Plain, Holds,
         DescribesAll, AllPlain, Walk;
    var image, at := pre + Archive(ms) + trailer, |pre|;
    if ms == [] {
      assert image[at + 257..at + 262] == trailer[257..262];
      WalkEnds(image, at);
      NoneDescribed(image);
    } else {
      var m, rest := ms[0], ms[1..];
      StepOver(pre, ms, trailer);
      WalkRecords(pre + Record(m), rest, trailer);
      WalkRecord(image, at, m, ShownOf(rest));
    }
  }

  lemma NoneDescribed(image: seq<Byte>)
    ensures DescribesAll(image, Found([]), []) && AllPlain([])
  {
  }

  /** From `at` on the walk describes the shown members if they are plain, and otherwise does not. */
  ghost predicate Sound(image: seq<Byte>, at: nat, shown: seq<Member>)
  {
    && (AllPlain(shown) ==> DescribesAll(image, Walk(image, at), shown))
    && (OneLimits(shown) && DescribesAll(image, Walk(image, at), shown) ==> AllPlain(shown))
  }

  /** One step of the walk, from what holds after the record to what holds before it. */
  lemma WalkRecord(image: seq<Byte>, at: nat, m: Member, rest: seq<Member>)
    requires WellFormed(m) && Holds(image, at, Header(m)) && Holds(image, at + BLOCK, m.content)
    requires |m.content| < WORD || Shown(m.kind)
    requires |m.content| < WORD ==> Sound(image, Next(at, |m.content|), rest)
    ensures Sound(image, at, if Shown(m.kind) then [m] + rest else rest)
  {
    hide WellFormed, OneLimit, OneLimits, Header, Terminator, Stripped, Next, Octal, Describes, Plain, Holds,
         DescribesAll, AllPlain, Walk, Shown;
    HeaderRead(image, at, m);
    var size, end := |m.content| % WORD, Terminator(image, at);
    assert size == Octal(image[at + 124..at + 135]) % WORD;
    WalkOn(image, at, []);
    FoundNothingYet(Walk(image, at));
    FoundNothingYet(Walk(image, Next(at, size)));
    if Shown(m.kind) && end < |image| {
      EntryRead(image, at, m, end);
      var e := Entry(Stripped(image[at..end]), m.kind, at + BLOCK, size);
      assert [] + [e] == [e];
      OneMore(image, e, Walk(image, Next(at, size)), m, rest);
      if Plain(m) {
        PlainFits(m);
      }
    } else if Shown(m.kind) {
      NotPlain(image, at, m);
      assert m in [m] + rest && !AllPlain([m] + rest) && !DescribesAll(image, Overrun, [m] + rest) by {
        OverrunFails(image, m, rest);
      }
    }
  }

  lemma PlainFits(m: Member)
    requires Plain(m)
    ensures |m.content| % WORD == |m.content| < WORD
  {
  }

  /** A name with no end in the image filled its field. */
  lemma NotPlain(image: seq<Byte>, at: nat, m: Member)
    requires WellFormed(m) && Holds(image, at, Header(m)) && Terminator(image, at) == |image|
    ensures !Plain(m)
  {
    hide Header, WellFormed, Terminator;
    NameRead(image, at, m);
    HeaderFields(m);
  }

  lemma OverrunFails(image: seq<Byte>, m: Member, rest: seq<Member>)
    requires !Plain(m)
    ensures !AllPlain([m] + rest) && !DescribesAll(image, Overrun, [m] + rest)
  {
    hide Plain;
    assert m in [m] + rest;
  }

  lemma FoundNothingYet(o: Outcome)
    ensures Joined([], o) == o
  {
  }

  lemma OneMore(image: seq<Byte>, e: Entry, o: Outcome, m: Member, rest: seq<Member>)
    ensures DescribesAll(image, Joined([e], o), [m] + rest) <==> Describes(image, e, m) && DescribesAll(image, o, rest)
    ensures AllPlain([m] + rest) <==> Plain(m) && AllPlain(rest)
    ensures OneLimits([m] + rest) <==> OneLimit(m) && OneLimits(rest)
  {
    hide Describes, Plain, OneLimit;
    assert forall x :: x in [m] + rest <==> x == m || x in rest;
    if o.Found? && |o.entries| == |rest| {
      var es, ms := [e] + o.entries, [m] + rest;
      assert es[0] == e && ms[0] == m && es[1..] == o.entries && ms[1..] == rest;
      forall i | 0 <= i < |rest|
        ensures es[i + 1] == o.entries[i] && ms[i + 1] == rest[i]
      {
      }
      if DescribesAll(image, Found(es), ms) {
        forall i | 0 <= i < |rest|
          ensures Describes(image, o.entries[i], rest[i])
        {
          assert Describes(image, es[i + 1], ms[i + 1]);
        }
      }
    }
  }

  /** For every archive whose file and directory members are plain, the walk yields exactly those
      members, in order, each with the standard's name, its type and its data; and where none of them
      has both a prefix and a full name field, only for those archives. */
  lemma RoundTrip(ms: seq<Member>, trailer: seq<Byte>)
    requires Fit(ms) && EndsArchive(trailer)
    ensures var image := Archive(ms) + trailer;
            && (AllPlain(ShownOf(ms)) ==> DescribesAll(image, Walk(image, 0), ShownOf(ms)))
            && (OneLimits(ShownOf(ms)) ==>
                  (DescribesAll(image, Walk(image, 0), ShownOf(ms)) <==> AllPlain(ShownOf(ms))))
  {
    hide Walk, WellFormed, OneLimits, DescribesAll, AllPlain, ShownOf, EndsArchive, Archive;
    WalkRecords([], ms, trailer);
    assert [] + Archive(ms) + trailer == Archive(ms) + trailer;
  }

  /** An image that ends before the header after the last member makes the walk leave it. */
  lemma TruncatedOverruns(ms: seq<Member>, rest: seq<Byte>)
    requires Fit(ms) && AllPlain(ShownOf(ms)) && |rest| < 262
    ensures Walk(Archive(ms) + rest, 0) == Overrun
  {
    hide Walk, WellFormed, AllPlain, ShownOf, Archive;
    WalkTruncated([], ms, rest);
    assert [] + Archive(ms) + rest == Archive(ms) + rest;
  }

  lemma {:induction false} WalkTruncated(pre: seq<Byte>, ms: seq<Member>, rest: seq<Byte>)
    requires Fit(ms) && AllPlain(ShownOf(ms)) && |rest| < 262
    ensures Walk(pre + Archive(ms) + rest, |pre|) == Overrun
    decreases |ms|
  {
    hide WellFormed, Header, Record, Next, Plain, Holds, Walk;
    var image, at := pre + Archive(ms) + rest, |pre|;
    if ms == [] {
      WalkEnds(image, at);
    } else {
      var m := ms[0];
      StepOver(pre, ms, rest);
      RestIsPlain(ms);
      if FileOrDirectory(m) {
        PlainFits(m);
      }
      WalkTruncated(pre + Record(m), ms[1..], rest);
      RecordKeepsOverrun(image, at, m);
    }
  }

  lemma RestIsPlain(ms: seq<Member>)
    requires AllPlain(ShownOf(ms)) && ms != []
    ensures AllPlain(ShownOf(ms[1..])) && (FileOrDirectory(ms[0]) ==> Plain(ms[0]))
  {
    hide Plain;
    if FileOrDirectory(ms[0]) {
      assert ShownOf(ms)[0] == ms[0];
      assert forall m :: m in ShownOf(ms[1..]) ==> m in ShownOf(ms);
    }
  }

  lemma RecordKeepsOverrun(image: seq<Byte>, at: nat, m: Member)
    requires WellFormed(m) && Holds(image, at, Header(m)) && |m.content| < 0x1_0000_0000
    requires Walk(image, Next(at, |m.content|)) == Overrun
    ensures Walk(image, at) == Overrun
  {
    hide WellFormed, Header, Terminator, Stripped, Next, Octal, Holds, Walk;
    HeaderRead(image, at, m);
    WalkOn(image, at, []);
    FoundNothingYet(Walk(image, at));
  }

  /** A member `a` with the prefix `b`. */
  function Prefixed(): Member {
    Member([97], [98], 48, [], Digits(0, 8), Zeros(16), Zeros(21), Zeros(100), Zeros(83), Zeros(12), [])
  }

  /** The walk leaves the prefix out. */
  lemma PrefixIgnored()
    ensures var m := Prefixed();
            Fit([m]) &&
            var image := Archive([m]) + Zeros(1024);
            !DescribesAll(image, Walk(image, 0), ShownOf([m]))
  {
    hide Archive, Walk, Zeros, DescribesAll;
    var m := Prefixed();
    assert WellFormed(m) && OneLimit(m);
    assert ShownOf([m]) == [m] && !Plain(m);
    ZeroBlocksEnd();
    RoundTrip([m], Zeros(1024));
  }

  /** Reading the `i`th entry in any chunks that ask for all of it gives the `i`th shown member back. */
  lemma FilesRebuilt(ms: seq<Member>, trailer: seq<Byte>, i: nat, lengths: seq<nat>)
    requires Fit(ms) && EndsArchive(trailer) && AllPlain(ShownOf(ms)) && i < |ShownOf(ms)|
    requires Sum(lengths) >= |ShownOf(ms)[i].content|
    ensures var image := Archive(ms) + trailer;
            && Walk(image, 0).Found? && i < |Walk(image, 0).entries|
            && var e := Walk(image, 0).entries[i];
            && InImage(image, e)
            && Chunks(Contents(image, e), 0, lengths) == ShownOf(ms)[i].content
  {
    hide Walk, WellFormed, OneLimits, Archive, Plain, ShownOf, EndsArchive, Chunks;
    var image := Archive(ms) + trailer;
    RoundTrip(ms, trailer);
    var e := Walk(image, 0).entries[i];
    assert Describes(image, e, ShownOf(ms)[i]);
    ChunkingRebuilds(Contents(image, e), lengths);
  }
}
