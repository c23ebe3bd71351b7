/** Sampled content keys and stable snapshots (artifact_content_key.py).

    A key is modelled by the exact byte stream fed to the hash, so two keys are equal
    exactly when the streams are. */
module ArtifactSampling {

  newtype Byte = x: int | 0 <= x < 256

  const WINDOW_BYTES := 64 * 1024
  const WINDOW_COUNT := 8
  const MAX_READ_BYTES := WINDOW_BYTES * WINDOW_COUNT
  const STABLE_READ_ATTEMPTS := 2
  const WORD_LIMIT := 0x1_0000_0000_0000_0000

  datatype Window = Window(offset: nat, length: nat) {
    function End(): nat { offset + length }
  }

  function SampleWindows(size: nat): seq<Window> {
    if size <= MAX_READ_BYTES then [Window(0, size)]
    else seq(WINDOW_COUNT, i requires 0 <= i < WINDOW_COUNT =>
               Window(((size - WINDOW_BYTES) * i) / (WINDOW_COUNT - 1), WINDOW_BYTES))
  }

  function TotalLength(windows: seq<Window>): nat {
    if windows == [] then 0 else windows[0].length + TotalLength(windows[1..])
  }

  lemma Stride(last: nat, i: nat)
    requires last >= 7 * WINDOW_BYTES
    ensures (last * i) / 7 + WINDOW_BYTES <= (last * (i + 1)) / 7
  {
    assert last * (i + 1) == last * i + last;
  }

  /** Window `i` of eight starts `i` sevenths of the way, rounded down. */
  predicate EvenlySpaced(last: int, i: int, offset: int) {
    last * i - 7 < 7 * offset <= last * i
  }

  /** For every file size the windows are in order, pairwise disjoint and inside the file,
      hold its first and last byte, and read min(size, 512 KiB) bytes in all. */
  lemma WindowsSound(size: nat)
    ensures var ws := SampleWindows(size);
            && (forall i, j :: 0 <= i < j < |ws| ==> ws[i].End() <= ws[j].offset)
            && (forall i :: 0 <= i < |ws| ==> ws[i].End() <= size)
            && ws[0].offset == 0 && ws[|ws| - 1].End() == size
            && (size > 0 ==> forall i :: 0 <= i < |ws| ==> ws[i].length > 0)
            && TotalLength(ws) == if size <= MAX_READ_BYTES then size else MAX_READ_BYTES
  {
    var ws := SampleWindows(size);
    if size > MAX_READ_BYTES {
      var last := size - WINDOW_BYTES;
      Stride(last, 0); Stride(last, 1); Stride(last, 2); Stride(last, 3);
      Stride(last, 4); Stride(last, 5); Stride(last, 6);
      assert (last * 7) / 7 == last;
      assert ws == [ws[0], ws[1], ws[2], ws[3], ws[4], ws[5], ws[6], ws[7]];
      UniformTotal(ws, 8);
    } else {
      assert TotalLength(ws) == ws[0].length + TotalLength(ws[1..]);
    }
  }

  /** One window holds a file of up to 512 KiB; a larger one gets eight of 64 KiB, evenly spaced. */
  lemma WindowsSpread(size: nat)
    ensures var ws := SampleWindows(size);
            if size <= 524_288 then ws == [Window(0, size)]
            else |ws| == 8 && forall i :: 0 <= i < 8 ==>
                ws[i].length == 65_536 && EvenlySpaced(size - 65_536, i, ws[i].offset)
  {}

  lemma {:induction false} UniformTotal(ws: seq<Window>, n: nat)
    requires |ws| == n && forall i :: 0 <= i < n ==> ws[i].length == WINDOW_BYTES
    ensures TotalLength(ws) == n * WINDOW_BYTES
  {
    if n > 0 { UniformTotal(ws[1..], n - 1); }
  }

  // ---- The digest stream ----

  /** `struct.pack("<Q", n)`: eight little-endian bytes. */
  function Pack(n: nat, width: nat): (bytes: seq<Byte>)
    ensures |bytes| == width
  {
    if width == 0 then [] else [(n % 256) as Byte] + Pack(n / 256, width - 1)
  }

  ghost function Power256(k: nat): nat {
    if k == 0 then 1 else 256 * Power256(k - 1)
  }

  lemma {:induction false} PackInjective(m: nat, n: nat, width: nat)
    requires m < Power256(width) && n < Power256(width)
    requires Pack(m, width) == Pack(n, width)
    ensures m == n
  {
    if width > 0 {
      assert Pack(m, width)[0] == Pack(n, width)[0];
      assert Pack(m, width)[1..] == Pack(m / 256, width - 1);
      assert Pack(n, width)[1..] == Pack(n / 256, width - 1);
      PackInjective(m / 256, n / 256, width - 1);
    }
  }

  function Value(bytes: seq<Byte>): nat {
    if bytes == [] then 0 else bytes[0] as int + 256 * Value(bytes[1..])
  }

  /** The bytes of a word are its digits to base 256, the least first. */
  lemma {:induction false} PackValue(n: nat, width: nat)
    requires n < Power256(width)
    ensures Value(Pack(n, width)) == n
  {
    if width > 0 {
      assert Pack(n, width)[1..] == Pack(n / 256, width - 1);
      PackValue(n / 256, width - 1);
    }
  }

  lemma WordInjective(m: nat, n: nat)
    requires m < WORD_LIMIT && n < WORD_LIMIT && Pack(m, 8) == Pack(n, 8)
    ensures m == n
  {
    assert Power256(8) == WORD_LIMIT by {
      assert Power256(2) == 0x1_0000 && Power256(4) == 0x1_0000_0000 && Power256(6) == 0x1_0000_0000_0000;
    }
    PackInjective(m, n, 8);
  }

  /** What `handle.seek(offset); handle.read(length)` returns. */
  function Read(file: seq<Byte>, w: Window): seq<Byte> {
    if w.End() <= |file| then file[w.offset..w.End()]
    else if w.offset <= |file| then file[w.offset..]
    else []
  }

  /** Reading stops at the end of the window or of the file, whichever comes first. */
  lemma ReadMeans(file: seq<Byte>, w: Window, k: nat)
    ensures |file| >= w.offset + w.length ==> |Read(file, w)| == w.length
    ensures w.offset <= |file| < w.offset + w.length ==> |Read(file, w)| == |file| - w.offset
    ensures |file| < w.offset ==> Read(file, w) == []
    ensures k < |Read(file, w)| ==> Read(file, w)[k] == file[w.offset + k]
  {}

  function WindowStream(file: seq<Byte>, w: Window): seq<Byte> {
    Pack(w.offset, 8) + Pack(|Read(file, w)|, 8) + Read(file, w)
  }

  function WindowsStream(file: seq<Byte>, ws: seq<Window>): seq<Byte> {
    if ws == [] then [] else WindowsStream(file, ws[..|ws| - 1]) + WindowStream(file, ws[|ws| - 1])
  }

  datatype Algorithm = FullDigest(domain: nat) | Sampled(prefix: seq<Byte>)

  /** The bytes hashed for a file whose stat size was `size`. */
  function DigestStream(algorithm: Algorithm, file: seq<Byte>, size: nat): seq<Byte> {
    match algorithm
    case FullDigest(_) => file
    case Sampled(prefix) => prefix + Pack(size, 8) + WindowsStream(file, SampleWindows(size))
  }

  lemma Snoc<T>(a: seq<T>, b: seq<T>)
    requires b != []
    ensures (a + b)[..|a + b| - 1] == a + b[..|b| - 1] && (a + b)[|a + b| - 1] == b[|b| - 1]
  {}

  lemma Associative<T>(a: seq<T>, b: seq<T>, c: seq<T>)
    ensures (a + b) + c == a + (b + c)
  {}

  lemma {:induction false} StreamConcat(file: seq<Byte>, a: seq<Window>, b: seq<Window>)
    ensures WindowsStream(file, a + b) == WindowsStream(file, a) + WindowsStream(file, b)
  {
    if b == [] {
      assert a + b == a;
    } else {
      var n := |b| - 1;
      Snoc(a, b);
      StreamConcat(file, a, b[..n]);
      Associative(WindowsStream(file, a), WindowsStream(file, b[..n]), WindowStream(file, b[n]));
    }
  }

  /** Each window is hashed as its offset, the number of bytes read there, and those bytes. */
  lemma StreamJoin(file: seq<Byte>, a: seq<Window>, w: Window, b: seq<Window>)
    ensures WindowsStream(file, a + [w] + b) ==
        WindowsStream(file, a) + (Pack(w.offset, 8) + Pack(|Read(file, w)|, 8) + Read(file, w)) + WindowsStream(file, b)
  {
    StreamConcat(file, a + [w], b);
    StreamConcat(file, a, [w]);
    assert [w][..0] == [] && [w][0] == w;
  }

  predicate Whole(file: seq<Byte>, w: Window) {
    |Read(file, w)| == w.length
  }

  lemma StreamSnoc(start: seq<Byte>, file: seq<Byte>, ws: seq<Window>, i: nat)
    requires i < |ws|
    ensures start + WindowsStream(file, ws[..i + 1]) ==
        (start + WindowsStream(file, ws[..i])) + WindowStream(file, ws[i])
  {
    assert ws[..i + 1][..i] == ws[..i];
  }

  lemma WholeSnoc(file: seq<Byte>, ws: seq<Window>, i: nat)
    requires i < |ws|
    ensures AllWhole(file, ws[..i + 1]) <==> AllWhole(file, ws[..i]) && Whole(file, ws[i])
  {
    assert ws[..i + 1] == ws[..i] + [ws[i]];
  }

  predicate AllWhole(file: seq<Byte>, ws: seq<Window>) {
    forall w :: w in ws ==> Whole(file, w)
  }

  /** The sampling loop: hash each window's position and bytes, noting a short read. */
  method ReadWindows(start: seq<Byte>, file: seq<Byte>, ws: seq<Window>)
      returns (stream: seq<Byte>, complete: bool)
    ensures stream == start + WindowsStream(file, ws)
    ensures complete <==> AllWhole(file, ws)
  {
    stream, complete := start, true;
    var i := 0;
    while i < |ws|
      invariant 0 <= i <= |ws|
      invariant stream == start + WindowsStream(file, ws[..i])
      invariant complete <==> AllWhole(file, ws[..i])
    {
      var chunk := Read(file, ws[i]);
      if |chunk| != ws[i].length {
        complete := false;
      }
      StreamSnoc(start, file, ws, i);
      WholeSnoc(file, ws, i);
      stream := stream + (Pack(ws[i].offset, 8) + Pack(|chunk|, 8) + chunk);
      i := i + 1;
    }
    assert ws[..i] == ws;
  }

  lemma WholeIffReached(file: seq<Byte>, ws: seq<Window>, size: nat)
    requires ws != [] && ws[|ws| - 1].End() == size && (size > 0 ==> ws[|ws| - 1].length > 0)
    requires forall i :: 0 <= i < |ws| ==> ws[i].End() <= size
    ensures AllWhole(file, ws) <==> |file| >= size
  {
    assert ws[|ws| - 1] in ws;
  }

  lemma WholeIffLongEnough(file: seq<Byte>, size: nat)
    ensures AllWhole(file, SampleWindows(size)) <==> |file| >= size
  {
    WindowsSound(size);
    WholeIffReached(file, SampleWindows(size), size);
  }

  /** `_digest_open_file`: the stream, and whether every read came back whole. A full digest
      is complete exactly for a file of the stat size; the sampled one also for a longer file,
      which the second stat has to catch. */
  method DigestOpenFile(algorithm: Algorithm, file: seq<Byte>, size: nat)
      returns (stream: seq<Byte>, complete: bool)
    ensures stream == DigestStream(algorithm, file, size)
    ensures complete <==> (if algorithm.FullDigest? then |file| == size else |file| >= size)
  {
    if algorithm.FullDigest? {
      return file, |file| == size;
    }
    stream, complete := ReadWindows(algorithm.prefix + Pack(size, 8), file, SampleWindows(size));
    WholeIffLongEnough(file, size);
  }

  datatype Stat = Stat(size: nat, mtime: int)

  /** What one attempt sees: the two stats around the bytes it read. */
  datatype Attempt = Attempt(before: Stat, bytes: seq<Byte>, after: Stat)

  datatype Snapshot = Snapshot(stream: seq<Byte>, stat: Stat) | Changed

  predicate Stable(algorithm: Algorithm, a: Attempt) {
    && a.before == a.after
    && (if algorithm.FullDigest? then |a.bytes| == a.before.size else |a.bytes| >= a.before.size)
  }

  /** `s` is what the first stable attempt, number `i`, saw. */
  predicate PublishedFrom(algorithm: Algorithm, attempts: seq<Attempt>, i: nat, s: Snapshot)
    requires i < |attempts|
  {
    && Stable(algorithm, attempts[i])
    && (forall k :: 0 <= k < i ==> !Stable(algorithm, attempts[k]))
    && s == Snapshot(DigestStream(algorithm, attempts[i].bytes, attempts[i].before.size), attempts[i].after)
  }

  /** Something changed while the file was read: its stat, or it was shorter than its stat said, or,
      when all of it is hashed, longer. */
  predicate Disturbed(stat: Stat, a: Attempt, full: bool) {
    a.after != stat || |a.bytes| < stat.size || (full && |a.bytes| > stat.size)
  }

  /** The stream is the prefix, the size as a word, and the sampled windows in their frames. */
  predicate HashedWindows(s: Snapshot, prefix: seq<Byte>, bytes: seq<Byte>) {
    s.Snapshot? && s.stream == prefix + Pack(s.stat.size, 8) + WindowsStream(bytes, SampleWindows(s.stat.size))
  }

  /** `file_content_key_snapshot`: at most two attempts, and only a stable one is published. */
  method FileContentKeySnapshot(algorithm: Algorithm, attempts: seq<Attempt>) returns (s: Snapshot)
    requires |attempts| == STABLE_READ_ATTEMPTS
    ensures s.Changed? <==> forall i :: 0 <= i < |attempts| ==> !Stable(algorithm, attempts[i])
    ensures s.Snapshot? ==> exists i :: 0 <= i < |attempts| && PublishedFrom(algorithm, attempts, i, s)
    ensures s.Changed? <==>
              forall i :: 0 <= i < |attempts| ==> Disturbed(attempts[i].before, attempts[i], algorithm.FullDigest?)
    ensures s.Snapshot? ==>
              exists i :: 0 <= i < |attempts|
                && s.stat == attempts[i].before == attempts[i].after && |attempts[i].bytes| >= s.stat.size
                && (algorithm.FullDigest? ==> s.stream == attempts[i].bytes && |s.stream| == s.stat.size)
                && (algorithm.Sampled? ==> HashedWindows(s, algorithm.prefix, attempts[i].bytes))
                && forall k :: 0 <= k < i ==> Disturbed(attempts[k].before, attempts[k], algorithm.FullDigest?)
  {
    var i := 0;
    while i < STABLE_READ_ATTEMPTS
      invariant 0 <= i <= STABLE_READ_ATTEMPTS
      invariant forall k :: 0 <= k < i ==> !Stable(algorithm, attempts[k])
    {
      var a := attempts[i];
      var stream, complete := DigestOpenFile(algorithm, a.bytes, a.before.size);
      if complete && a.before == a.after {
        s := Snapshot(stream, a.after);
        assert PublishedFrom(algorithm, attempts, i, s);
        return;
      }
      i := i + 1;
    }
    return Changed;
  }

  // ---- What a sampled key proves ----

  ghost predicate AgreeOnWindows(f: seq<Byte>, g: seq<Byte>, ws: seq<Window>) {
    forall i :: 0 <= i < |ws| ==> Read(f, ws[i]) == Read(g, ws[i])
  }

  lemma ConcatSplit(a: seq<Byte>, b: seq<Byte>, x: seq<Byte>, y: seq<Byte>)
    requires |a| == |b|
    ensures a + x == b + y <==> a == b && x == y
  {
    assert (a + x)[..|a|] == a && (b + y)[..|b|] == b;
    assert (a + x)[|a|..] == x && (b + y)[|b|..] == y;
  }

  lemma ChunkStream(f: seq<Byte>, g: seq<Byte>, w: Window)
    requires w.End() <= |f| && w.End() <= |g|
    ensures |WindowStream(f, w)| == |WindowStream(g, w)|
    ensures WindowStream(f, w) == WindowStream(g, w) <==> Read(f, w) == Read(g, w)
  {
    var head := Pack(w.offset, 8) + Pack(w.length, 8);
    ConcatSplit(head, head, Read(f, w), Read(g, w));
  }

  lemma AgreeSnoc(f: seq<Byte>, g: seq<Byte>, ws: seq<Window>)
    requires ws != []
    ensures var n := |ws| - 1;
            AgreeOnWindows(f, g, ws) <==> AgreeOnWindows(f, g, ws[..n]) && Read(f, ws[n]) == Read(g, ws[n])
  {
    var init := ws[..|ws| - 1];
    assert forall i :: 0 <= i < |init| ==> init[i] == ws[i];
    if AgreeOnWindows(f, g, init) && Read(f, ws[|ws| - 1]) == Read(g, ws[|ws| - 1]) {
      forall i | 0 <= i < |ws| ensures Read(f, ws[i]) == Read(g, ws[i]) {
        if i < |init| { assert Read(f, init[i]) == Read(g, init[i]); }
      }
    }
  }

  lemma {:induction false} SameStreamSameChunks(f: seq<Byte>, g: seq<Byte>, ws: seq<Window>)
    requires forall i :: 0 <= i < |ws| ==> ws[i].End() <= |f| && ws[i].End() <= |g|
    ensures |WindowsStream(f, ws)| == |WindowsStream(g, ws)|
    ensures WindowsStream(f, ws) == WindowsStream(g, ws) <==> AgreeOnWindows(f, g, ws)
  {
    if ws != [] {
      var n := |ws| - 1;
      SameStreamSameChunks(f, g, ws[..n]);
      ChunkStream(f, g, ws[n]);
      ConcatSplit(WindowsStream(f, ws[..n]), WindowsStream(g, ws[..n]), WindowStream(f, ws[n]), WindowStream(g, ws[n]));
      AgreeSnoc(f, g, ws);
    }
  }

  /** Two files have one full key exactly when they are equal. */
  lemma FullKeyMeaning(domain: nat, f: seq<Byte>, g: seq<Byte>)
    ensures DigestStream(FullDigest(domain), f, |f|) == DigestStream(FullDigest(domain), g, |g|) <==> f == g
  {}

  /** Two stably read files have one sampled key if and only if their sizes are equal and
      they agree on every sampled window; up to 512 KiB, exactly when they are equal. */
  lemma SampledKeyMeaning(prefix: seq<Byte>, f: seq<Byte>, g: seq<Byte>)
    requires |f| < WORD_LIMIT && |g| < WORD_LIMIT
    ensures DigestStream(Sampled(prefix), f, |f|) == DigestStream(Sampled(prefix), g, |g|)
       <==> |f| == |g| && AgreeOnWindows(f, g, SampleWindows(|f|))
    ensures |f| <= MAX_READ_BYTES ==>
              (DigestStream(Sampled(prefix), f, |f|) == DigestStream(Sampled(prefix), g, |g|) <==> f == g)
  {
    var u, v := DigestStream(Sampled(prefix), f, |f|), DigestStream(Sampled(prefix), g, |g|);
    var p := |prefix|;
    assert u[p..p + 8] == Pack(|f|, 8) && v[p..p + 8] == Pack(|g|, 8);
    assert u[p + 8..] == WindowsStream(f, SampleWindows(|f|)) && v[p + 8..] == WindowsStream(g, SampleWindows(|g|));
    if u == v { WordInjective(|f|, |g|); }
    if |f| == |g| {
      WindowsSound(|f|);
      SameStreamSameChunks(f, g, SampleWindows(|f|));
      if |f| <= MAX_READ_BYTES {
        var w := SampleWindows(|f|)[0];
        assert Read(f, w) == f && Read(g, w) == g;
      }
    }
  }
}
