/**
  Reassembling the camera's replies from BLE notifications: the frame parser, the
  in-place trimmer and the notification handler that joins them.
*/
module WakeFrames {
  import Sequences

  type byte = x: int | 0 <= x < 256

  // A frame is 13 57, a two-byte id, a four-byte length and that many bytes of payload.
  datatype Frame = Frame(msgId: nat, payload: seq<byte>)

  predicate ValidFrame(f: Frame) {
    f.msgId < 0x1_0000 && |f.payload| < 0x1_0000_0000
  }

  const HEADER := 8

  // ---- Little-endian integers ------------------------------------------------

  function Read16(b: seq<byte>): nat
    requires |b| == 2
  {
    b[0] as int + 0x100 * b[1] as int
  }

  function Read32(b: seq<byte>): nat
    requires |b| == 4
  {
    b[0] as int + 0x100 * b[1] as int + 0x1_0000 * b[2] as int + 0x100_0000 * b[3] as int
  }

  function Write16(n: nat): (b: seq<byte>)
    requires n < 0x1_0000
    ensures |b| == 2 && Read16(b) == n
  {
    [n % 0x100, n / 0x100]
  }

  function Write32(n: nat): (b: seq<byte>)
    requires n < 0x1_0000_0000
    ensures |b| == 4 && Read32(b) == n
  {
    var high, low := n / 0x1_0000, n % 0x1_0000;
    [low % 0x100, low / 0x100, high % 0x100, high / 0x100]
  }

  function Encode(f: Frame): (b: seq<byte>)
    requires ValidFrame(f)
    ensures |b| == HEADER + |f.payload|
  {
    [0x13, 0x57] + Write16(f.msgId) + Write32(|f.payload|) + f.payload
  }

  function EncodeAll(fs: seq<Frame>): seq<byte>
    requires forall f :: f in fs ==> ValidFrame(f)
  {
    if fs == [] then [] else Encode(fs[0]) + EncodeAll(fs[1..])
  }

  // Four bytes are the digits of a number in base 256, the least first; so are two.
  lemma LittleEndian(n: nat, b: seq<byte>)
    requires |b| == 4 && b[0] == n % 256 && b[1] == n / 256 % 256
    requires b[2] == n / 256 / 256 % 256 && b[3] == n / 256 / 256 / 256
    ensures Read32(b) == n
    ensures n < 0x1_0000 ==> Read16(b[..2]) == n
  {
    var m := n / 256;
    var k := m / 256;
    assert n == 256 * m + b[0] as int && m == 256 * k + b[1] as int && k == 256 * (b[3] as int) + b[2] as int;
    assert n < 0x1_0000 ==> k == 0;
  }

  // ---- What the parser and the trimmer compute --------------------------------

  predicate StartsFrame(b: seq<byte>) {
    |b| >= HEADER && b[0] == 0x13 && b[1] == 0x57
  }

  // The length the frame at the start of `b` announces, header included.
  function Announced(b: seq<byte>): nat
    requires |b| >= HEADER
  {
    HEADER + Read32(b[4..8])
  }

  // A whole frame stands at the start of `b`.
  predicate HasFrame(b: seq<byte>) {
    StartsFrame(b) && Announced(b) <= |b|
  }

  function FirstFrame(b: seq<byte>): Frame
    requires HasFrame(b)
  {
    Frame(Read16(b[2..4]), b[HEADER..Announced(b)])
  }

  // Every frame the parser yields: it steps over a byte that starts no frame, and stops
  // at a frame that has not fully arrived.
  function Parse(b: seq<byte>): seq<Frame>
    decreases |b|
  {
    if |b| < HEADER then []
    else if !StartsFrame(b) then Parse(b[1..])
    else if Announced(b) > |b| then []
    else [FirstFrame(b)] + Parse(b[Announced(b)..])
  }

  // The frames the trimmer drops from the front, and what it leaves.
  function Dropped(b: seq<byte>): seq<Frame>
    decreases |b|
  {
    if HasFrame(b) then [FirstFrame(b)] + Dropped(b[Announced(b)..]) else []
  }

  function Left(b: seq<byte>): seq<byte>
    decreases |b|
  {
    if HasFrame(b) then Left(b[Announced(b)..]) else b
  }

  // For any buffer at all, parsing it yields the frames the trimmer drops and then
  // whatever parsing the rest would yield.
  lemma {:induction false} ParseSplits(b: seq<byte>)
    ensures Parse(b) == Dropped(b) + Parse(Left(b))
    decreases |b|
  {
    if HasFrame(b) {
      ParseSplits(b[Announced(b)..]);
    }
  }

  // More bytes never take back a frame that was whole.
  lemma {:induction false} MoreBytes(a: seq<byte>, b: seq<byte>)
    ensures Dropped(a + b) == Dropped(a) + Dropped(Left(a) + b)
    ensures Left(a + b) == Left(Left(a) + b)
    decreases |a|
  {
    if HasFrame(a) {
      var n := Announced(a);
      assert (a + b)[4..8] == a[4..8] && (a + b)[2..4] == a[2..4];
      assert (a + b)[HEADER..n] == a[HEADER..n] && (a + b)[n..] == a[n..] + b;
      MoreBytes(a[n..], b);
    }
  }

  lemma ParseMore(a: seq<byte>, b: seq<byte>)
    ensures Parse(a + b) == Dropped(a) + Parse(Left(a) + b)
  {
    MoreBytes(a, b);
    ParseSplits(a + b);
    ParseSplits(Left(a) + b);
  }

  // ---- Frames and their encodings --------------------------------------------

  lemma EncodedFrame(f: Frame, rest: seq<byte>)
    requires ValidFrame(f)
    ensures var b := Encode(f) + rest;
            && HasFrame(b) && Announced(b) == |Encode(f)| && FirstFrame(b) == f && b[Announced(b)..] == rest
  {
    var b := Encode(f) + rest;
    assert b[2..4] == Write16(f.msgId);
    assert b[4..8] == Write32(|f.payload|);
    assert b[HEADER..HEADER + |f.payload|] == f.payload;
    assert b[|Encode(f)|..] == rest;
  }

  // A whole frame stands at the front of the buffer exactly when the buffer starts with
  // the encoding of one.
  lemma HasFrameIff(b: seq<byte>)
    ensures HasFrame(b) <==> exists f, rest :: ValidFrame(f) && b == Encode(f) + rest
    ensures HasFrame(b) ==> ValidFrame(FirstFrame(b)) && b == Encode(FirstFrame(b)) + b[Announced(b)..]
  {
    if HasFrame(b) {
      FrontIsEncoded(b);
    }
    forall f, rest | ValidFrame(f) && b == Encode(f) + rest
      ensures HasFrame(b)
    {
      EncodedFrame(f, rest);
    }
  }

  lemma FrontIsEncoded(b: seq<byte>)
    requires HasFrame(b)
    ensures ValidFrame(FirstFrame(b)) && b == Encode(FirstFrame(b)) + b[Announced(b)..]
  {
    WriteRead16(b[2..4]);
    WriteRead32(b[4..8]);
    var n := Announced(b);
    assert b == b[..2] + b[2..4] + b[4..8] + b[8..n] + b[n..];
    assert b[..2] == [0x13, 0x57];
  }

  lemma WriteRead16(b: seq<byte>)
    requires |b| == 2
    ensures Read16(b) < 0x1_0000 && Write16(Read16(b)) == b
  {
  }

  lemma Halves(low: nat, high: nat)
    requires low < 0x1_0000
    ensures (low + 0x1_0000 * high) % 0x1_0000 == low && (low + 0x1_0000 * high) / 0x1_0000 == high
  {
  }

  lemma WriteRead32(b: seq<byte>)
    requires |b| == 4
    ensures Read32(b) < 0x1_0000_0000 && Write32(Read32(b)) == b
  {
    WriteRead16(b[..2]);
    WriteRead16(b[2..]);
    Halves(Read16(b[..2]), Read16(b[2..]));
    assert Read32(b) == Read16(b[..2]) + 0x1_0000 * Read16(b[2..]);
    assert Write32(Read32(b)) == Write16(Read16(b[..2])) + Write16(Read16(b[2..]));
  }

  lemma OneFrame(b: seq<byte>)
    requires HasFrame(b) && Announced(b) == |b|
    ensures Parse(b) == [Frame(Read16(b[2..4]), b[8..])]
  {
    var n := Announced(b);
    assert b[n..] == [] && b[HEADER..n] == b[8..];
    assert Parse([]) == [];
    assert Parse(b) == [FirstFrame(b)] + Parse(b[n..]);
  }

  // The command that wakes the camera is a frame of id 1 without a payload; and a reply
  // with an id and a payload of more than one byte.
  lemma WakeCommand(wake: seq<byte>, reply: seq<byte>)
    requires wake == [0x13, 0x57, 0x01, 0, 0, 0, 0, 0]
    requires reply == [0x13, 0x57, 0x34, 0x12, 2, 0, 0, 0, 7, 9]
    ensures Parse(wake) == [Frame(1, [])] && Parse(reply) == [Frame(0x1234, [7, 9])]
  {
    assert wake[2..4] == [1, 0] && wake[4..8] == [0, 0, 0, 0] && wake[8..] == [];
    assert reply[2..4] == [0x34, 0x12] && reply[4..8] == [2, 0, 0, 0] && reply[8..] == [7, 9];
    OneFrame(wake);
    OneFrame(reply);
  }

  // What has arrived is too little of `f` for the parser to see it.
  lemma PartialFrame(f: Frame, b: seq<byte>)
    requires ValidFrame(f) && b <= Encode(f) && |b| < |Encode(f)|
    ensures !HasFrame(b) && Parse(b) == []
  {
  }

  // `left` is a strict part of the next of `fs` still to come, or nothing if none is.
  ghost predicate PartOfNext(left: seq<byte>, fs: seq<Frame>)
    requires forall f :: f in fs ==> ValidFrame(f)
  {
    if fs == [] then left == [] else left <= Encode(fs[0]) && |left| < |Encode(fs[0])|
  }

  // The part of a clean stream that has arrived: whole frames, then part of the next.
  lemma {:induction false} CleanPrefix(b: seq<byte>, fs: seq<Frame>) returns (m: nat)
    requires (forall f :: f in fs ==> ValidFrame(f)) && b <= EncodeAll(fs)
    ensures m <= |fs| && Dropped(b) == fs[..m] && Parse(b) == fs[..m]
    ensures Parse(Left(b)) == [] && PartOfNext(Left(b), fs[m..])
    ensures forall rest :: b + rest <= EncodeAll(fs) ==> Left(b) + rest <= EncodeAll(fs[m..])
    decreases |fs|
  {
    if fs == [] {
      m := 0;
    } else {
      var whole := Encode(fs[0]);
      if |b| < |whole| {
        ShortPrefix(b, whole, EncodeAll(fs[1..]));
        PartialFrame(fs[0], b);
        m := 0;
        assert fs[0..] == fs;
      } else {
        var later := b[|whole|..];
        LongPrefix(b, whole, EncodeAll(fs[1..]));
        EncodedFrame(fs[0], later);
        m := CleanPrefix(later, fs[1..]);
        CleanRest(fs, b, later);
        TailTake(fs, m);
        m := m + 1;
      }
    }
  }

  lemma ShortPrefix(b: seq<byte>, whole: seq<byte>, rest: seq<byte>)
    requires b <= whole + rest && |b| < |whole|
    ensures b <= whole
  {
  }

  lemma LongPrefix(b: seq<byte>, whole: seq<byte>, rest: seq<byte>)
    requires b <= whole + rest && |b| >= |whole|
    ensures b == whole + b[|whole|..] && b[|whole|..] <= rest
  {
  }

  lemma TailTake<T>(s: seq<T>, m: nat)
    requires s != [] && m < |s|
    ensures s[1..][m..] == s[m + 1..] && s[..m + 1] == [s[0]] + s[1..][..m]
  {
  }

  lemma CleanRest(fs: seq<Frame>, b: seq<byte>, later: seq<byte>)
    requires fs != [] && (forall f :: f in fs ==> ValidFrame(f)) && b == Encode(fs[0]) + later
    ensures forall rest :: b + rest <= EncodeAll(fs) ==> later + rest <= EncodeAll(fs[1..])
  {
    forall rest | b + rest <= EncodeAll(fs)
      ensures later + rest <= EncodeAll(fs[1..])
    {
      assert b + rest == Encode(fs[0]) + (later + rest);
      assert (b + rest)[|Encode(fs[0])|..] == later + rest;
      assert EncodeAll(fs)[|Encode(fs[0])|..] == EncodeAll(fs[1..]);
    }
  }

  // ---- Notifications ---------------------------------------------------------

  function Flatten(chunks: seq<seq<byte>>): seq<byte> {
    if chunks == [] then [] else chunks[0] + Flatten(chunks[1..])
  }

  // The frames handed over by a run of notifications that starts with `buf` left over.
  function Delivered(buf: seq<byte>, chunks: seq<seq<byte>>): seq<Frame>
    decreases |chunks|
  {
    if chunks == [] then []
    else Parse(buf + chunks[0]) + Delivered(Left(buf + chunks[0]), chunks[1..])
  }

  // The buffer after that run.
  function Buffered(buf: seq<byte>, chunks: seq<seq<byte>>): seq<byte>
    decreases |chunks|
  {
    if chunks == [] then buf else Buffered(Left(buf + chunks[0]), chunks[1..])
  }

  lemma PartParsesToNothing(buf: seq<byte>, fs: seq<Frame>)
    requires (forall f :: f in fs ==> ValidFrame(f)) && PartOfNext(buf, fs)
    ensures Parse(buf) == []
  {
    if fs != [] {
      PartialFrame(fs[0], buf);
    }
  }

  lemma TakeInTwo(fs: seq<Frame>, k: nat, n: nat)
    requires k <= |fs| && n <= |fs[k..]|
    ensures fs[..k + n] == fs[..k] + fs[k..][..n] && fs[k + n..] == fs[k..][n..]
  {
  }

  // A clean stream, cut into notifications anywhere: its frames are handed over once each
  // and in order, exactly as one parse of all the bytes would, and what stays buffered is
  // a strict part of the next frame.
  lemma {:induction false} CleanStreamDelivered(buf: seq<byte>, chunks: seq<seq<byte>>, fs: seq<Frame>) returns (m: nat)
    requires (forall f :: f in fs ==> ValidFrame(f)) && buf + Flatten(chunks) <= EncodeAll(fs)
    requires PartOfNext(buf, fs)
    ensures m <= |fs| && Delivered(buf, chunks) == fs[..m] == Parse(buf + Flatten(chunks))
    ensures PartOfNext(Buffered(buf, chunks), fs[m..])
    decreases |chunks|
  {
    if chunks == [] {
      m := 0;
      assert buf + Flatten(chunks) == buf;
      PartParsesToNothing(buf, fs);
      assert fs[0..] == fs;
    } else {
      var b, rest := buf + chunks[0], Flatten(chunks[1..]);
      assert buf + Flatten(chunks) == b + rest;
      var k := CleanPrefix(b, fs);
      var n := CleanStreamDelivered(Left(b), chunks[1..], fs[k..]);
      ParseMore(b, rest);
      m := k + n;
      TakeInTwo(fs, k, n);
    }
  }

  // The first frame start in `b` is at `i`, and the frame is whole.
  ghost predicate FrameAt(b: seq<byte>, i: nat) {
    i <= |b| && HasFrame(b[i..]) && forall j: nat :: j < i ==> !StartsFrame(b[j..])
  }

  lemma FrameOneLater(b: seq<byte>, i: nat)
    requires b != [] && !StartsFrame(b)
    ensures FrameAt(b, i + 1) <==> FrameAt(b[1..], i)
  {
    if i + 1 <= |b| {
      assert b[i + 1..] == b[1..][i..];
      assert b[0..] == b;
      if FrameAt(b, i + 1) {
        forall j: nat | j < i
          ensures !StartsFrame(b[1..][j..])
        {
          assert b[1..][j..] == b[j + 1..];
        }
      }
      if FrameAt(b[1..], i) {
        forall j: nat | j < i + 1
          ensures !StartsFrame(b[j..])
        {
          assert j > 0 ==> b[j..] == b[1..][j - 1..];
        }
      }
    }
  }

  // The parser yields something exactly when the first frame start is that of a whole frame.
  lemma {:induction false} ParsesIff(b: seq<byte>)
    ensures Parse(b) != [] <==> exists i: nat :: FrameAt(b, i)
    decreases |b|
  {
    assert b[0..] == b;
    if HasFrame(b) {
      assert FrameAt(b, 0);
    } else if StartsFrame(b) || |b| < HEADER {
      forall i: nat
        ensures !FrameAt(b, i)
      {
        assert i <= |b| && i > 0 && HasFrame(b[i..]) ==> |b| >= HEADER && StartsFrame(b[0..]);
      }
    } else {
      ParsesIff(b[1..]);
      ParsesOneLater(b);
    }
  }

  lemma ParsesOneLater(b: seq<byte>)
    requires |b| >= HEADER && !StartsFrame(b)
    requires Parse(b[1..]) != [] <==> exists i: nat :: FrameAt(b[1..], i)
    ensures Parse(b) != [] <==> exists i: nat :: FrameAt(b, i)
  {
    assert b[0..] == b;
    if i: nat :| FrameAt(b[1..], i) {
      FrameOneLater(b, i);
      assert FrameAt(b, i + 1);
    }
    if i: nat :| FrameAt(b, i) {
      FrameOneLater(b, i - 1);
    }
  }

  // The bytes the trimmer leaves hold a whole frame further on: it stops at a byte that
  // starts none, and the parser does not.
  ghost predicate LeavesFrame(b: seq<byte>) {
    exists i: nat :: FrameAt(Left(b), i)
  }

  lemma {:induction false} LeftStartsWithStray(b: seq<byte>, i: nat)
    requires FrameAt(Left(b), i)
    ensures i > 0 && !StartsFrame(Left(b))
    decreases |b|
  {
    assert Left(b)[0..] == Left(b);
    if HasFrame(b) {
      LeftStartsWithStray(b[Announced(b)..], i);
    }
  }

  // No notification but the last leaves a whole frame behind a stray byte.
  ghost predicate NothingLeftOver(buf: seq<byte>, chunks: seq<seq<byte>>)
    decreases |chunks|
  {
    |chunks| > 1 ==> !LeavesFrame(buf + chunks[0]) && NothingLeftOver(Left(buf + chunks[0]), chunks[1..])
  }

  // `a` is `b` with some elements left out.
  ghost predicate Within<T>(a: seq<T>, b: seq<T>) {
    a == [] || (b != [] && (Within(a, b[1..]) || (a[0] == b[0] && Within(a[1..], b[1..]))))
  }

  lemma {:induction false} WithinSelf<T>(a: seq<T>)
    ensures Within(a, a)
  {
    if a == [] {
    } else {
      WithinSelf(a[1..]);
    }
  }

  lemma {:induction false} WithinAfter<T>(a: seq<T>, b: seq<T>, skipped: seq<T>)
    requires Within(a, b)
    ensures Within(a, skipped + b)
  {
    if skipped == [] {
      assert skipped + b == b;
    } else {
      WithinAfter(a, b, skipped[1..]);
      assert (skipped + b)[1..] == skipped[1..] + b;
    }
  }

  lemma {:induction false} WithinPrefixed<T>(a: seq<T>, b: seq<T>, prefix: seq<T>)
    requires Within(a, b)
    ensures Within(prefix + a, prefix + b)
  {
    if prefix == [] {
      assert prefix + a == a && prefix + b == b;
    } else {
      WithinPrefixed(a, b, prefix[1..]);
      assert (prefix + a)[1..] == prefix[1..] + a && (prefix + b)[1..] == prefix[1..] + b;
    }
  }

  // Every frame of one parse of all the bytes is handed over, and in that order; on any
  // bytes whatever, handing frames over notification by notification equals that one
  // parse exactly when no notification but the last leaves a whole frame in the buffer
  // behind a stray byte.
  lemma {:induction false} DeliveredOnceIff(buf: seq<byte>, chunks: seq<seq<byte>>)
    requires chunks != []
    ensures Within(Parse(buf + Flatten(chunks)), Delivered(buf, chunks))
    ensures |Delivered(buf, chunks)| >= |Parse(buf + Flatten(chunks))|
    ensures Delivered(buf, chunks) == Parse(buf + Flatten(chunks)) <==> NothingLeftOver(buf, chunks)
    decreases |chunks|
  {
    var b, rest := buf + chunks[0], Flatten(chunks[1..]);
    assert buf + Flatten(chunks) == b + rest;
    if |chunks| == 1 {
      assert b + rest == b && chunks[1..] == [];
      assert Delivered(buf, chunks) == Parse(b) + [] == Parse(b);
      WithinSelf(Parse(b));
    } else {
      DeliveredOnceIff(Left(b), chunks[1..]);
      ParseSplits(b);
      ParseMore(b, rest);
      ParsesIff(Left(b));
      OneMoreNotification(Dropped(b), Parse(Left(b)), Delivered(Left(b), chunks[1..]), Parse(Left(b) + rest));
    }
  }

  // The frames trimmed off come first either way; those yielded but not trimmed off come
  // on top.
  lemma OneMoreNotification(dropped: seq<Frame>, again: seq<Frame>, later: seq<Frame>, batch: seq<Frame>)
    requires Within(batch, later) && |later| >= |batch|
    ensures Within(dropped + batch, dropped + again + later)
    ensures |dropped + again + later| >= |dropped + batch|
    ensures dropped + again + later == dropped + batch <==> again == [] && later == batch
  {
    WithinAfter(batch, later, again);
    WithinPrefixed(batch, again + later, dropped);
    assert dropped + again + later == dropped + (again + later);
    if again == [] {
      assert again + later == later;
    }
    SamePrefix(dropped, again + later, batch);
  }

  lemma SamePrefix<T>(a: seq<T>, b: seq<T>, c: seq<T>)
    ensures a + b == a + c <==> b == c
  {
    if a + b == a + c {
      assert b == (a + b)[|a|..] == (a + c)[|a|..] == c;
    }
  }

  // One stray byte before a frame is enough for the frame to be handed over twice.
  lemma StrayByteDeliversTwice(stray: byte, f: Frame, next: seq<byte>)
    requires ValidFrame(f) && stray != 0x13
    ensures !NothingLeftOver([], [[stray] + Encode(f), next])
    ensures Delivered([], [[stray] + Encode(f), next]) == [f, f] + Parse(next)
  {
    var b := [stray] + Encode(f);
    Sequences.NothingConcat(b);
    StrayByteStays(stray, f, next);
    TwoNotifications([], b, next);
    Twice(f, Parse(next));
  }

  lemma Twice(f: Frame, rest: seq<Frame>)
    ensures [f] + ([f] + rest) == [f, f] + rest
  {
  }

  lemma StrayByteStays(stray: byte, f: Frame, next: seq<byte>)
    requires ValidFrame(f) && stray != 0x13
    ensures var b := [stray] + Encode(f);
            Left(b) == b && LeavesFrame(b) && Parse(b) == [f] && Parse(b + next) == [f] + Parse(next)
  {
    var b := [stray] + Encode(f);
    Sequences.NothingConcat(b);
    Sequences.NothingConcat([f]);
    StrayByte(stray, f, []);
    StrayByte(stray, f, next);
    ParsesIff(Left(b));
  }

  lemma TwoNotifications(buf: seq<byte>, first: seq<byte>, second: seq<byte>)
    ensures Delivered(buf, [first, second]) == Parse(buf + first) + Parse(Left(buf + first) + second)
    ensures NothingLeftOver(buf, [first, second]) <==> !LeavesFrame(buf + first)
  {
    var chunks: seq<seq<byte>> := [first, second];
    var left := Left(buf + first);
    assert chunks[1..] == [second];
    assert Delivered(left, [second]) == Parse(left + second) + [] == Parse(left + second);
    assert NothingLeftOver(left, [second]);
  }

  lemma StrayByte(stray: byte, f: Frame, rest: seq<byte>)
    requires ValidFrame(f) && stray != 0x13
    ensures var b := [stray] + Encode(f) + rest; Parse(b) == [f] + Parse(rest) && Left(b) == b
  {
    var b := [stray] + Encode(f) + rest;
    EncodedFrame(f, rest);
    assert b[1..] == Encode(f) + rest;
  }

  // How many bytes the parser reports as consumed: all but what may still become a frame.
  function Consumed(b: seq<byte>): (n: nat)
    ensures n <= |b|
    decreases |b|
  {
    if |b| < HEADER then 0
    else if !StartsFrame(b) then 1 + Consumed(b[1..])
    else if Announced(b) > |b| then 0
    else Announced(b) + Consumed(b[Announced(b)..])
  }

  // Parsing on after trimming by that count yields what one parse of all the bytes would.
  ghost predicate ResumesAt(a: seq<byte>, b: seq<byte>) {
    Parse(a + b) == Parse(a) + Parse(a[Consumed(a)..] + b)
  }

  lemma {:induction false} ConsumedIsRight(a: seq<byte>, b: seq<byte>)
    ensures ResumesAt(a, b)
    decreases |a|
  {
    if |a| < HEADER || (StartsFrame(a) && Announced(a) > |a|) {
      assert a[0..] == a;
    } else if StartsFrame(a) {
      ConsumedIsRight(a[Announced(a)..], b);
      ResumesAfterFrame(a, b);
    } else {
      ConsumedIsRight(a[1..], b);
      ResumesAfterStray(a, b);
    }
  }

  lemma ResumesAfterFrame(a: seq<byte>, b: seq<byte>)
    requires HasFrame(a) && ResumesAt(a[Announced(a)..], b)
    ensures ResumesAt(a, b)
  {
    var n := Announced(a);
    LongerBuffer(a, b, n);
    Sequences.ConcatAssociative([FirstFrame(a)], Parse(a[n..]), Parse(a[n..][Consumed(a[n..])..] + b));
  }

  lemma ResumesAfterStray(a: seq<byte>, b: seq<byte>)
    requires |a| >= HEADER && !StartsFrame(a) && ResumesAt(a[1..], b)
    ensures ResumesAt(a, b)
  {
    LongerBuffer(a, b, 1);
  }

  // The frames handed over by a handler that trims by the count instead.
  function DeliveredByCount(buf: seq<byte>, chunks: seq<seq<byte>>): seq<Frame>
    decreases |chunks|
  {
    if chunks == [] then []
    else
      var b := buf + chunks[0];
      Parse(b) + DeliveredByCount(b[Consumed(b)..], chunks[1..])
  }

  // Trimming by the count the parser reports, which the handler ignores, would hand every
  // frame over once on any bytes and any run of notifications.
  lemma {:induction false} CountDeliversOnce(buf: seq<byte>, chunks: seq<seq<byte>>)
    requires chunks != []
    ensures DeliveredByCount(buf, chunks) == Parse(buf + Flatten(chunks))
    decreases |chunks|
  {
    var b, rest := buf + chunks[0], Flatten(chunks[1..]);
    assert buf + Flatten(chunks) == b + rest;
    ConsumedIsRight(b, rest);
    if |chunks| == 1 {
      assert b + rest == b;
      assert DeliveredByCount(buf, chunks) == Parse(b) + [];
    } else {
      CountDeliversOnce(b[Consumed(b)..], chunks[1..]);
    }
  }

  // What stands at the start of a buffer still does when more is appended.
  lemma LongerBuffer(a: seq<byte>, b: seq<byte>, n: nat)
    requires HEADER <= |a| && n <= |a|
    ensures (a + b)[n..] == a[n..] + b && (StartsFrame(a + b) <==> StartsFrame(a))
    ensures HasFrame(a) ==> HasFrame(a + b) && Announced(a + b) == Announced(a) && FirstFrame(a + b) == FirstFrame(a)
    ensures a[n..][Consumed(a[n..])..] == a[n + Consumed(a[n..])..]
  {
    assert (a + b)[4..8] == a[4..8] && (a + b)[2..4] == a[2..4];
    if HasFrame(a) {
      assert (a + b)[HEADER..Announced(a)] == a[HEADER..Announced(a)];
    }
  }

  // ---- The code --------------------------------------------------------------

  // What the parser sees at position `i`, in terms of the buffer from there on.
  lemma Ahead(buf: seq<byte>, i: nat)
    requires i + HEADER <= |buf|
    ensures var b := buf[i..];
            && b[2..4] == buf[i + 2..i + 4] && b[4..8] == buf[i + 4..i + 8]
            && (StartsFrame(b) <==> buf[i] == 0x13 && buf[i + 1] == 0x57)
  {
  }

  // The frames before position `i` have been yielded; those after it are still to come.
  ghost predicate ParsedTo(buf: seq<byte>, i: nat, frames: seq<Frame>) {
    i <= |buf| && frames + Parse(buf[i..]) == Parse(buf) && i + Consumed(buf[i..]) == Consumed(buf)
  }

  lemma Begins(buf: seq<byte>)
    ensures ParsedTo(buf, 0, [])
  {
  }

  lemma StepsOver(buf: seq<byte>, i: nat, frames: seq<Frame>)
    requires ParsedTo(buf, i, frames) && i + HEADER <= |buf| && (buf[i] != 0x13 || buf[i + 1] != 0x57)
    ensures ParsedTo(buf, i + 1, frames)
  {
  }

  lemma TakesFrame(buf: seq<byte>, i: nat, frames: seq<Frame>, f: Frame, next: nat)
    requires ParsedTo(buf, i, frames) && i + HEADER <= |buf| && buf[i] == 0x13 && buf[i + 1] == 0x57
    requires next == i + HEADER + Read32(buf[i + 4..i + 8]) <= |buf|
    requires f == Frame(Read16(buf[i + 2..i + 4]), buf[i + HEADER..next])
    ensures ParsedTo(buf, next, frames + [f])
  {
    var b, n := buf[i..], next - i;
    Ahead(buf, i);
    assert b[n..] == buf[next..] && b[HEADER..n] == buf[i + HEADER..next];
    assert f == FirstFrame(b);
    assert frames + ([f] + Parse(buf[next..])) == frames + [f] + Parse(buf[next..]);
  }

  lemma Stops(buf: seq<byte>, i: nat, frames: seq<Frame>)
    requires ParsedTo(buf, i, frames)
    requires |buf| - i < HEADER
             || (buf[i] == 0x13 && buf[i + 1] == 0x57 && HEADER + Read32(buf[i + 4..i + 8]) > |buf| - i)
    ensures frames == Parse(buf) && i == Consumed(buf)
  {
  }

  method ParseFrames(buf: seq<byte>) returns (frames: seq<Frame>, consumed: nat)
    ensures frames == Parse(buf) && consumed == Consumed(buf)
  {
    var i := 0;
    frames, consumed := [], 0;
    Begins(buf);
    while |buf| - i >= HEADER
      invariant ParsedTo(buf, i, frames) && consumed == i
      decreases |buf| - i
    {
      if buf[i] != 0x13 || buf[i + 1] != 0x57 {
        StepsOver(buf, i, frames);
        i := i + 1;
        consumed := i;
        continue;
      }
      var msgId := Read16(buf[i + 2..i + 4]);
      var length := Read32(buf[i + 4..i + 8]);
      if HEADER + length > |buf| - i {
        break;
      }
      var next := i + HEADER + length;
      var frame := Frame(msgId, buf[i + HEADER..next]);
      TakesFrame(buf, i, frames, frame, next);
      frames := frames + [frame];
      i := next;
      consumed := i;
    }
    Stops(buf, i, frames);
  }

  // The buffer the notification handler shares with the trimmer, and all it has handed over.
  class Receiver {
    var buf: seq<byte>
    var delivered: seq<Frame>

    constructor ()
      ensures buf == [] && delivered == []
    {
      buf, delivered := [], [];
    }

    method Retrim()
      modifies this`buf
      ensures buf == Left(old(buf))
    {
      var i := 0;
      while |buf| - i >= HEADER && buf[i] == 0x13 && buf[i + 1] == 0x57
        invariant 0 <= i <= |buf| && Left(buf[i..]) == Left(buf)
        decreases |buf| - i
      {
        ghost var tail := buf[i..];
        assert buf[i + 4..i + 8] == tail[4..8];
        var length := Read32(buf[i + 4..i + 8]);
        if HEADER + length > |buf| - i {
          break;
        }
        assert tail[HEADER + length..] == buf[i + HEADER + length..];
        i := i + HEADER + length;
      }
      buf := buf[i..];
    }

    method OnNotify(data: seq<byte>)
      modifies this
      ensures delivered == old(delivered) + Parse(old(buf) + data)
      ensures buf == Left(old(buf) + data)
    {
      buf := buf + data;
      var frames, _ := ParseFrames(buf);
      for i := 0 to |frames|
        invariant buf == old(buf) + data && delivered == old(delivered) + frames[..i]
      {
        delivered := delivered + [frames[i]];
      }
      assert frames[..|frames|] == frames;
      Retrim();
    }

    // A run of notifications.
    method OnNotifications(chunks: seq<seq<byte>>)
      modifies this
      ensures delivered == old(delivered) + Delivered(old(buf), chunks)
      ensures buf == Buffered(old(buf), chunks)
      decreases |chunks|
    {
      Sequences.NothingConcat(delivered);
      if chunks != [] {
        ghost var b := buf + chunks[0];
        OnNotify(chunks[0]);
        OnNotifications(chunks[1..]);
        Sequences.ConcatAssociative(old(delivered), Parse(b), Delivered(Left(b), chunks[1..]));
      }
    }
  }
}
