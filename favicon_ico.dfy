/** The favicon's ICO container: a 6-byte header, one 16-byte directory
    entry per image, then the PNG images themselves, every number written
    little-endian into zero-filled buffers. */
module FaviconIco {
  import opened Wrappers
  import opened Seqs

  type byte = x: int | 0 <= x < 256

  const HEADER_SIZE := 6
  const DIR_ENTRY_SIZE := 16

  /** The sizes the site's icon carries. */
  const ICO_SIZES: seq<int> := [16, 32, 48]

  function Pow256(width: nat): (p: nat)
    ensures p >= 1
  {
    if width == 0 then 1 else 256 * Pow256(width - 1)
  }

  // ---------------------------------------------------------------------------
  // little-endian numbers

  /** The `width` low bytes of `v`, least significant first. */
  function LE(v: int, width: nat): (bs: seq<byte>)
    ensures |bs| == width
    decreases width
  {
    if width == 0 then [] else [v % 256] + LE(v / 256, width - 1)
  }

  /** The number a little-endian byte string denotes. */
  function ReadLE(bs: seq<byte>): (v: nat)
    ensures v < Pow256(|bs|)
  {
    if bs == [] then 0 else bs[0] + 256 * ReadLE(bs[1..])
  }

  /** Writing a number that fits and reading it back gives the number. */
  lemma {:induction false} ReadWrite(v: nat, width: nat)
    requires v < Pow256(width)
    ensures ReadLE(LE(v, width)) == v
  {
    if width > 0 {
      ReadWrite(v / 256, width - 1);
      assert LE(v, width)[1..] == LE(v / 256, width - 1);
    }
  }

  /** Reading a byte string and writing the number back gives the bytes. */
  lemma {:induction false} WriteRead(bs: seq<byte>)
    ensures LE(ReadLE(bs), |bs|) == bs
  {
    if bs != [] {
      var v := ReadLE(bs);
      var rest := ReadLE(bs[1..]);
      assert v % 256 == bs[0] && v / 256 == rest;
      WriteRead(bs[1..]);
      assert bs == [bs[0]] + bs[1..];
    }
  }

  // ---------------------------------------------------------------------------
  // buffers

  /** `s` with the bytes from position `at` replaced by `bs`. */
  function Splice(s: seq<byte>, at: nat, bs: seq<byte>): (r: seq<byte>)
    requires at + |bs| <= |s|
    ensures |r| == |s|
    ensures r[..at] == s[..at] && r[at..at + |bs|] == bs && r[at + |bs|..] == s[at + |bs|..]
  {
    s[..at] + bs + s[at + |bs|..]
  }

  /** Two adjacent writes are one write of both. */
  lemma SpliceSplice(s: seq<byte>, at: nat, a: seq<byte>, b: seq<byte>)
    requires at + |a| + |b| <= |s|
    ensures Splice(Splice(s, at, a), at + |a|, b) == Splice(s, at, a + b)
  {
    var r := Splice(Splice(s, at, a), at + |a|, b);
    var t := Splice(s, at, a + b);
    forall k | 0 <= k < |s| ensures r[k] == t[k] {
      if k < at {
        assert r[k] == r[..at][k];
        assert t[k] == t[..at][k];
      } else if k < at + |a| {
        assert r[k] == r[..at + |a|][k] == Splice(s, at, a)[k];
        assert Splice(s, at, a)[k] == Splice(s, at, a)[at..at + |a|][k - at];
        assert t[k] == t[at..at + |a| + |b|][k - at];
      } else if k < at + |a| + |b| {
        assert r[k] == r[at + |a|..at + |a| + |b|][k - at - |a|];
        assert t[k] == t[at..at + |a| + |b|][k - at];
      } else {
        assert r[k] == r[at + |a| + |b|..][k - at - |a| - |b|];
        assert t[k] == t[at + |a| + |b|..][k - at - |a| - |b|];
        assert Splice(s, at, a)[k] == Splice(s, at, a)[at + |a|..][k - at - |a|];
      }
    }
  }

  /** Extending a write by one byte. */
  lemma SpliceSnoc(s: seq<byte>, at: nat, p: seq<byte>, x: byte)
    requires at + |p| + 1 <= |s|
    ensures Splice(s, at, p)[at + |p| := x] == Splice(s, at, p + [x])
  {
    var r := Splice(s, at, p)[at + |p| := x];
    var t := Splice(s, at, p + [x]);
    forall k | 0 <= k < |s| ensures r[k] == t[k] {
      if k < at {
        assert t[k] == t[..at][k];
        assert Splice(s, at, p)[k] == Splice(s, at, p)[..at][k];
      } else if k < at + |p| {
        assert t[k] == t[at..at + |p| + 1][k - at];
        assert Splice(s, at, p)[k] == Splice(s, at, p)[at..at + |p|][k - at];
      } else if k == at + |p| {
        assert t[k] == t[at..at + |p| + 1][k - at];
      } else {
        assert t[k] == t[at + |p| + 1..][k - at - |p| - 1];
        assert Splice(s, at, p)[k] == Splice(s, at, p)[at + |p|..][k - at - |p|];
      }
    }
  }

  /** A write that covers the whole buffer replaces it. */
  lemma SpliceAll(s: seq<byte>, bs: seq<byte>)
    requires |bs| == |s|
    ensures Splice(s, 0, bs) == bs
  {
    assert Splice(s, 0, bs)[0..|bs|] == bs;
  }

  /** `buf.writeUInt8`, `writeUInt16LE` and `writeUInt32LE` for a width of
      1, 2 and 4 bytes: a value out of range or a position outside the
      buffer throws and writes nothing; otherwise the value's bytes replace
      those at `at`. */
  method WriteUIntLE(buf: array<byte>, value: int, at: int, width: nat) returns (ok: bool)
    modifies buf
    ensures ok <==> 0 <= value < Pow256(width) && 0 <= at && at + width <= buf.Length
    ensures ok ==> buf[..] == Splice(old(buf[..]), at, LE(value, width))
    ensures !ok ==> buf[..] == old(buf[..])
  {
    if !(0 <= value < Pow256(width) && 0 <= at && at + width <= buf.Length) {
      return false;
    }
    var v := value;
    var k := 0;
    assert LE(value, width)[..0] == [];
    assert Splice(buf[..], at, []) == buf[..];
    while k < width
      invariant 0 <= k <= width
      invariant LE(value, width) == LE(value, width)[..k] + LE(v, width - k)
      invariant buf[..] == Splice(old(buf[..]), at, LE(value, width)[..k])
    {
      var written := LE(value, width)[..k];
      assert LE(value, width)[k] == v % 256;
      assert LE(value, width)[..k + 1] == written + [v % 256];
      SpliceSnoc(old(buf[..]), at, written, v % 256);
      buf[at + k] := v % 256;
      assert LE(v, width - k) == [v % 256] + LE(v / 256, width - k - 1);
      v := v / 256;
      k := k + 1;
    }
    assert LE(value, width)[..width] == LE(value, width);
    return true;
  }

  // ---------------------------------------------------------------------------
  // the layout

  /** `Buffer.concat` of a list of buffers. */
  function Concat(parts: seq<seq<byte>>): (r: seq<byte>)
  {
    if parts == [] then [] else Concat(parts[..|parts| - 1]) + parts[|parts| - 1]
  }

  lemma ConcatStep(parts: seq<seq<byte>>, i: nat)
    requires i < |parts|
    ensures Concat(parts[..i + 1]) == Concat(parts[..i]) + parts[i]
  {
    assert parts[..i + 1][..i] == parts[..i];
  }

  /** The concatenation of the first `i` parts is where the whole starts. */
  lemma {:induction false} ConcatPrefix(parts: seq<seq<byte>>, i: nat)
    requires i <= |parts|
    ensures |Concat(parts[..i])| <= |Concat(parts)|
    ensures Concat(parts)[..|Concat(parts[..i])|] == Concat(parts[..i])
    decreases |parts| - i
  {
    if i == |parts| {
      assert parts[..i] == parts;
    } else {
      ConcatPrefix(parts, i + 1);
      ConcatStep(parts, i);
      var a := Concat(parts[..i]);
      var b := Concat(parts[..i + 1]);
      assert b[..|a|] == a;
      assert Concat(parts)[..|a|] == Concat(parts)[..|b|][..|a|];
    }
  }

  /** Part `i` lies right after the first `i` parts. */
  lemma PartAt(parts: seq<seq<byte>>, i: nat)
    requires i < |parts|
    ensures var a := |Concat(parts[..i])|;
      a + |parts[i]| <= |Concat(parts)| && Concat(parts)[a..a + |parts[i]|] == parts[i]
  {
    ConcatPrefix(parts, i + 1);
    ConcatStep(parts, i);
    var a := |Concat(parts[..i])|;
    var b := Concat(parts[..i + 1]);
    assert Concat(parts)[a..a + |parts[i]|] == Concat(parts)[..|b|][a..a + |parts[i]|];
  }

  /** Parts of one length `w` put part `i` at `w * i`. */
  lemma {:induction false} UniformLength(parts: seq<seq<byte>>, w: nat, i: nat)
    requires i <= |parts|
    requires forall j :: 0 <= j < |parts| ==> |parts[j]| == w
    ensures |Concat(parts[..i])| == w * i
  {
    if i > 0 {
      UniformLength(parts, w, i - 1);
      ConcatStep(parts, i - 1);
    }
  }

  /** The offset of every image: the header and the directory come first,
      and each image follows the one before. */
  function Offsets(pngs: seq<seq<byte>>): (offs: seq<int>)
    ensures |offs| == |pngs|
  {
    var start := HEADER_SIZE + DIR_ENTRY_SIZE * |pngs|;
    seq(|pngs|, i requires 0 <= i < |pngs| => start + |Concat(pngs[..i])|)
  }

  /** The first image starts after the directory, and each next one where
      the one before ends. */
  lemma OffsetsChain(pngs: seq<seq<byte>>)
    ensures |pngs| > 0 ==> Offsets(pngs)[0] == HEADER_SIZE + DIR_ENTRY_SIZE * |pngs|
    ensures forall i :: 0 <= i < |pngs| - 1 ==> Offsets(pngs)[i + 1] == Offsets(pngs)[i] + |pngs[i]|
  {
    if |pngs| > 0 {
      assert pngs[..0] == [];
    }
    forall i | 0 <= i < |pngs| - 1 ensures Offsets(pngs)[i + 1] == Offsets(pngs)[i] + |pngs[i]| {
      ConcatStep(pngs, i);
    }
  }

  /** The width and height byte: the size, with 256 written as 0. */
  function Dim(size: int): int {
    if size == 256 then 0 else size
  }

  /** The 16-byte directory entry of one image. */
  function Entry(size: int, len: int, offset: int): (e: seq<byte>)
    ensures |e| == DIR_ENTRY_SIZE
  {
    LE(Dim(size), 1) + LE(Dim(size), 1) + LE(0, 1) + LE(0, 1)
      + LE(1, 2) + LE(32, 2) + LE(len, 4) + LE(offset, 4)
  }

  /** Whether every field of the entry fits its width. */
  predicate EntryFits(size: int, len: int, offset: int) {
    0 <= Dim(size) < 256 && 0 <= len < Pow256(4) && 0 <= offset < Pow256(4)
  }

  function Header(n: int): (h: seq<byte>)
    ensures |h| == HEADER_SIZE
  {
    LE(0, 2) + LE(1, 2) + LE(n, 2)
  }

  /** The entries for images of the given sizes placed at the given
      offsets. */
  function EntriesAt(sizes: seq<int>, pngs: seq<seq<byte>>, offsets: seq<int>): (es: seq<seq<byte>>)
    requires |sizes| == |pngs| == |offsets|
    ensures |es| == |pngs|
    ensures forall i :: 0 <= i < |es| ==> |es[i]| == DIR_ENTRY_SIZE
  {
    seq(|pngs|, i requires 0 <= i < |pngs| => Entry(sizes[i], |pngs[i]|, offsets[i]))
  }

  /** The directory's entries. */
  function Entries(sizes: seq<int>, pngs: seq<seq<byte>>): (es: seq<seq<byte>>)
    requires |sizes| == |pngs|
    ensures |es| == |pngs|
    ensures forall i :: 0 <= i < |es| ==> |es[i]| == DIR_ENTRY_SIZE
  {
    EntriesAt(sizes, pngs, Offsets(pngs))
  }

  predicate AllFit(sizes: seq<int>, pngs: seq<seq<byte>>, offsets: seq<int>)
    requires |sizes| == |pngs| == |offsets|
  {
    forall i :: 0 <= i < |pngs| ==> EntryFits(sizes[i], |pngs[i]|, offsets[i])
  }

  /** Whether no write throws: the count fits 16 bits and every entry fits. */
  predicate Encodable(sizes: seq<int>, pngs: seq<seq<byte>>)
    requires |sizes| == |pngs|
    ensures Encodable(sizes, pngs) ==> forall i :: 0 <= i < |pngs| ==> |pngs[i]| < Pow256(4) && 0 <= Dim(sizes[i]) < 256
  {
    |pngs| < Pow256(2) && AllFit(sizes, pngs, Offsets(pngs))
  }

  /** Header, directory and images, one after the other: 6 bytes, 16 per
      image, and the images. */
  function Layout(sizes: seq<int>, pngs: seq<seq<byte>>): (f: seq<byte>)
    requires |sizes| == |pngs|
    ensures |f| == HEADER_SIZE + DIR_ENTRY_SIZE * |pngs| + |Concat(pngs)|
  {
    DirectoryLength(sizes, pngs);
    Header(|pngs|) + Concat(Entries(sizes, pngs)) + Concat(pngs)
  }

  /** The file: the layout, or nothing when a write throws. */
  function IcoFile(sizes: seq<int>, pngs: seq<seq<byte>>): (r: Option<seq<byte>>)
    requires |sizes| == |pngs|
    ensures r.Some? <==> Encodable(sizes, pngs)
  {
    if Encodable(sizes, pngs) then Some(Layout(sizes, pngs)) else None
  }

  // ---------------------------------------------------------------------------
  // the encoder

  /** The eight writes of one directory entry at position `at`. */
  method WriteEntry(buf: array<byte>, at: int, size: int, len: int, offset: int) returns (ok: bool)
    requires 0 <= at && at + DIR_ENTRY_SIZE <= buf.Length
    modifies buf
    ensures ok <==> EntryFits(size, len, offset)
    ensures ok ==> buf[..] == Splice(old(buf[..]), at, Entry(size, len, offset))
  {
    var s := buf[..];
    ok := WriteUIntLE(buf, Dim(size), at, 1);
    if !ok { return; }
    var w := LE(Dim(size), 1);
    ok := WriteField(buf, s, at, w, Dim(size), 1);
    w := w + LE(Dim(size), 1);
    ok := WriteField(buf, s, at, w, 0, 1);
    w := w + LE(0, 1);
    ok := WriteField(buf, s, at, w, 0, 1);
    w := w + LE(0, 1);
    ok := WriteField(buf, s, at, w, 1, 2);
    w := w + LE(1, 2);
    ok := WriteField(buf, s, at, w, 32, 2);
    w := w + LE(32, 2);
    ok := WriteField(buf, s, at, w, len, 4);
    if !ok { return; }
    w := w + LE(len, 4);
    ok := WriteField(buf, s, at, w, offset, 4);
  }

  /** One write of an entry, right after the bytes `w` already written at
      `at`. */
  method WriteField(buf: array<byte>, s: seq<byte>, at: nat, w: seq<byte>, value: int, width: nat) returns (ok: bool)
    requires |s| == buf.Length && at + |w| + width <= |s|
    requires buf[..] == Splice(s, at, w)
    modifies buf
    ensures ok <==> 0 <= value < Pow256(width)
    ensures ok ==> buf[..] == Splice(s, at, w + LE(value, width))
  {
    ok := WriteUIntLE(buf, value, at + |w|, width);
    if ok {
      SpliceSplice(s, at, w, LE(value, width));
    }
  }

  /** The offsets, accumulated image by image. */
  method ComputeOffsets(pngs: seq<seq<byte>>) returns (offsets: seq<int>)
    ensures offsets == Offsets(pngs)
  {
    var n := |pngs|;
    var offset := HEADER_SIZE + DIR_ENTRY_SIZE * n;
    offsets := [];
    for i := 0 to n
      invariant offsets == Offsets(pngs)[..i]
      invariant offset == HEADER_SIZE + DIR_ENTRY_SIZE * n + |Concat(pngs[..i])|
    {
      ConcatStep(pngs, i);
      offsets := offsets + [offset];
      offset := offset + |pngs[i]|;
    }
  }

  /** The header buffer: reserved 0, type 1 and the image count. */
  method BuildHeader(n: int) returns (h: Option<seq<byte>>)
    ensures h.Some? <==> 0 <= n < Pow256(2)
    ensures h.Some? ==> h.value == Header(n)
  {
    var header := new byte[HEADER_SIZE](_ => 0);
    var zeros := header[..];
    var ok := WriteUIntLE(header, 0, 0, 2);
    ok := WriteUIntLE(header, 1, 2, 2);
    SpliceSplice(zeros, 0, LE(0, 2), LE(1, 2));
    ok := WriteUIntLE(header, n, 4, 2);
    if !ok {
      return None;
    }
    SpliceSplice(zeros, 0, LE(0, 2) + LE(1, 2), LE(n, 2));
    SpliceAll(zeros, Header(n));
    return Some(header[..]);
  }

  /** The directory buffer: entry `i` written at `16 * i`. */
  method BuildDirectory(sizes: seq<int>, pngs: seq<seq<byte>>, offsets: seq<int>) returns (d: Option<seq<byte>>)
    requires |sizes| == |pngs| == |offsets|
    ensures d.Some? <==> AllFit(sizes, pngs, offsets)
    ensures d.Some? ==> d.value == Concat(EntriesAt(sizes, pngs, offsets))
  {
    var n := |pngs|;
    var dir := new byte[DIR_ENTRY_SIZE * n](_ => 0);
    var es := EntriesAt(sizes, pngs, offsets);
    for i := 0 to n
      invariant dir.Length == DIR_ENTRY_SIZE * n
      invariant dir[..DIR_ENTRY_SIZE * i] == Concat(es[..i])
      invariant AllFit(sizes[..i], pngs[..i], offsets[..i])
    {
      assert DIR_ENTRY_SIZE * i + DIR_ENTRY_SIZE <= DIR_ENTRY_SIZE * n;
      var ok := WriteNextEntry(dir, es, i, sizes[i], |pngs[i]|, offsets[i]);
      if !ok {
        NotAllFit(sizes, pngs, offsets, i);
        return None;
      }
      AllFitExtend(sizes, pngs, offsets, i);
    }
    assert sizes[..n] == sizes && pngs[..n] == pngs && offsets[..n] == offsets;
    assert dir[..] == dir[..DIR_ENTRY_SIZE * n];
    assert es[..n] == es;
    return Some(dir[..]);
  }

  /** One turn of the directory loop: entry `i` written after the first `i`
      entries extends the written prefix by that entry. */
  method WriteNextEntry(dir: array<byte>, es: seq<seq<byte>>, i: nat, size: int, len: int, offset: int)
      returns (ok: bool)
    requires i < |es| && es[i] == Entry(size, len, offset)
    requires DIR_ENTRY_SIZE * i + DIR_ENTRY_SIZE <= dir.Length
    requires dir[..DIR_ENTRY_SIZE * i] == Concat(es[..i])
    modifies dir
    ensures ok <==> EntryFits(size, len, offset)
    ensures ok ==> dir[..DIR_ENTRY_SIZE * (i + 1)] == Concat(es[..i + 1])
  {
    var before := dir[..];
    ok := WriteEntry(dir, DIR_ENTRY_SIZE * i, size, len, offset);
    if ok {
      DirectoryStep(before, dir[..], es, i);
    }
  }

  /** One more entry that fits extends the run of entries that fit. */
  lemma AllFitExtend(sizes: seq<int>, pngs: seq<seq<byte>>, offsets: seq<int>, i: nat)
    requires |sizes| == |pngs| == |offsets| && i < |pngs|
    requires AllFit(sizes[..i], pngs[..i], offsets[..i])
    requires EntryFits(sizes[i], |pngs[i]|, offsets[i])
    ensures AllFit(sizes[..i + 1], pngs[..i + 1], offsets[..i + 1])
  {
    var s, p, o := sizes[..i + 1], pngs[..i + 1], offsets[..i + 1];
    forall j | 0 <= j < i + 1 ensures EntryFits(s[j], |p[j]|, o[j]) {
      if j < i {
        assert s[j] == sizes[..i][j] && p[j] == pngs[..i][j] && o[j] == offsets[..i][j];
      }
    }
  }

  /** One entry that does not fit spoils the directory. */
  lemma NotAllFit(sizes: seq<int>, pngs: seq<seq<byte>>, offsets: seq<int>, i: nat)
    requires |sizes| == |pngs| == |offsets| && i < |pngs|
    requires !EntryFits(sizes[i], |pngs[i]|, offsets[i])
    ensures !AllFit(sizes, pngs, offsets)
  {
  }

  /** Writing entry `i` after the first `i` extends the written prefix by
      that entry. */
  lemma DirectoryStep(before: seq<byte>, after: seq<byte>, es: seq<seq<byte>>, i: nat)
    requires i < |es| && |es[i]| == DIR_ENTRY_SIZE
    requires DIR_ENTRY_SIZE * (i + 1) <= |before|
    requires before[..DIR_ENTRY_SIZE * i] == Concat(es[..i])
    requires after == Splice(before, DIR_ENTRY_SIZE * i, es[i])
    ensures after[..DIR_ENTRY_SIZE * (i + 1)] == Concat(es[..i + 1])
  {
    ConcatStep(es, i);
    SplicePrefix(before, DIR_ENTRY_SIZE * i, es[i]);
  }

  /** `generateICO` once the PNG images are rendered: the offsets are
      accumulated, the header and the directory are written into
      zero-filled buffers, and everything is concatenated; a write that
      throws ends it with nothing. */
  method GenerateIco(sizes: seq<int>, pngs: seq<seq<byte>>) returns (r: Option<seq<byte>>)
    requires |sizes| == |pngs|
    ensures r == IcoFile(sizes, pngs)
  {
    var offsets := ComputeOffsets(pngs);
    var header := BuildHeader(|pngs|);
    if header.None? {
      return None;
    }
    var dir := BuildDirectory(sizes, pngs, offsets);
    if dir.None? {
      return None;
    }
    r := Some(header.value + dir.value + Concat(pngs));
  }

  /** What lies up to the end of a write is the bytes before it and the
      bytes written. */
  lemma SplicePrefix(s: seq<byte>, at: nat, bs: seq<byte>)
    requires at + |bs| <= |s|
    ensures Splice(s, at, bs)[..at + |bs|] == s[..at] + bs
  {
    var r := Splice(s, at, bs);
    assert r[..at + |bs|] == r[..at] + r[at..at + |bs|];
  }

  // ---------------------------------------------------------------------------
  // what the file says

  /** The file starts with the header. */
  lemma HeaderFirst(sizes: seq<int>, pngs: seq<seq<byte>>)
    requires |sizes| == |pngs|
    ensures var f := Layout(sizes, pngs); |f| >= HEADER_SIZE && f[..HEADER_SIZE] == Header(|pngs|)
  {
    var h := Header(|pngs|);
    var rest := Concat(Entries(sizes, pngs)) + Concat(pngs);
    assert Layout(sizes, pngs) == h + rest;
    assert (h + rest)[..|h|] == h;
  }

  /** The header reads back as reserved 0, type 1 and the image count. */
  lemma HeaderRead(n: nat)
    requires n < Pow256(2)
    ensures ReadLE(Header(n)[0..2]) == 0 && ReadLE(Header(n)[2..4]) == 1 && ReadLE(Header(n)[4..6]) == n
  {
    assert Header(n)[0..2] == LE(0, 2) && Header(n)[2..4] == LE(1, 2) && Header(n)[4..6] == LE(n, 2);
    ReadWrite(0, 2);
    ReadWrite(1, 2);
    ReadWrite(n, 2);
  }

  /** Entry `i` is the 16 bytes after `i` entries of the directory. */
  lemma EntryInDirectory(sizes: seq<int>, pngs: seq<seq<byte>>, i: nat)
    requires |sizes| == |pngs| && i < |pngs|
    ensures var d := Concat(Entries(sizes, pngs));
      DIR_ENTRY_SIZE * i + DIR_ENTRY_SIZE <= |d| &&
      d[DIR_ENTRY_SIZE * i..DIR_ENTRY_SIZE * i + DIR_ENTRY_SIZE] == Entry(sizes[i], |pngs[i]|, Offsets(pngs)[i])
  {
    var es := Entries(sizes, pngs);
    PartAt(es, i);
    UniformLength(es, DIR_ENTRY_SIZE, i);
  }

  /** Entry `i` is the 16 bytes after the header and `i` entries. */
  lemma EntryLocated(sizes: seq<int>, pngs: seq<seq<byte>>, i: nat)
    requires |sizes| == |pngs| && i < |pngs|
    ensures var f := Layout(sizes, pngs);
      var e := HEADER_SIZE + DIR_ENTRY_SIZE * i;
      e + DIR_ENTRY_SIZE <= |f| && f[e..e + DIR_ENTRY_SIZE] == Entry(sizes[i], |pngs[i]|, Offsets(pngs)[i])
  {
    var h := Header(|pngs|);
    var d := Concat(Entries(sizes, pngs));
    var p := Concat(pngs);
    assert Layout(sizes, pngs) == h + d + p;
    EntryInDirectory(sizes, pngs, i);
    SliceOfMiddle(h, d, p, DIR_ENTRY_SIZE * i, DIR_ENTRY_SIZE * i + DIR_ENTRY_SIZE);
  }

  /** An entry's leading bytes: its size twice, 0, 0, one plane and 32 bits
      per pixel. */
  lemma EntryConstants(size: int, len: int, offset: int)
    ensures var en := Entry(size, len, offset);
      && en[0] == en[1] == Dim(size) % 256
      && en[2] == 0 && en[3] == 0
      && ReadLE(en[4..6]) == 1 && ReadLE(en[6..8]) == 32
  {
    var en := Entry(size, len, offset);
    assert en[4..6] == LE(1, 2);
    assert en[6..8] == LE(32, 2);
    ReadWrite(1, 2);
    ReadWrite(32, 2);
  }

  /** An entry's trailing bytes: the image's length and its offset. */
  lemma EntryNumbers(size: int, len: int, offset: int)
    requires 0 <= len < Pow256(4) && 0 <= offset < Pow256(4)
    ensures var en := Entry(size, len, offset);
      ReadLE(en[8..12]) == len && ReadLE(en[12..16]) == offset
  {
    var en := Entry(size, len, offset);
    assert en[8..12] == LE(len, 4);
    assert en[12..16] == LE(offset, 4);
    ReadWrite(len, 4);
    ReadWrite(offset, 4);
  }

  /** Sixteen bytes that read back as a directory entry with the given
      fields: the size twice (256 as 0), 0, 0, one plane, 32 bits per pixel,
      the image's length and its offset. */
  predicate ReadsBack(en: seq<byte>, size: int, len: int, offset: int) {
    && |en| == DIR_ENTRY_SIZE
    && en[0] == en[1] == Dim(size)
    && en[2] == 0 && en[3] == 0
    && ReadLE(en[4..6]) == 1 && ReadLE(en[6..8]) == 32
    && ReadLE(en[8..12]) == len && ReadLE(en[12..16]) == offset
  }

  /** Entry `i` of a file whose writes all succeed reads back as the
      image's size, length and offset. */
  lemma EntryFields(sizes: seq<int>, pngs: seq<seq<byte>>, i: nat)
    requires |sizes| == |pngs| && i < |pngs|
    requires EntryFits(sizes[i], |pngs[i]|, Offsets(pngs)[i])
    ensures var f := Layout(sizes, pngs);
      var e := HEADER_SIZE + DIR_ENTRY_SIZE * i;
      e + DIR_ENTRY_SIZE <= |f| && ReadsBack(f[e..e + DIR_ENTRY_SIZE], sizes[i], |pngs[i]|, Offsets(pngs)[i])
  {
    EntryLocated(sizes, pngs, i);
    var e := HEADER_SIZE + DIR_ENTRY_SIZE * i;
    EntryRead(Layout(sizes, pngs)[e..e + DIR_ENTRY_SIZE], sizes[i], |pngs[i]|, Offsets(pngs)[i]);
  }

  /** The bytes of an entry whose fields fit read back as its fields. */
  lemma EntryRead(en: seq<byte>, size: int, len: int, offset: int)
    requires en == Entry(size, len, offset) && EntryFits(size, len, offset)
    ensures ReadsBack(en, size, len, offset)
  {
    EntryConstants(size, len, offset);
    EntryNumbers(size, len, offset);
  }

  /** The directory holds 16 bytes per image. */
  lemma DirectoryLength(sizes: seq<int>, pngs: seq<seq<byte>>)
    requires |sizes| == |pngs|
    ensures |Concat(Entries(sizes, pngs))| == DIR_ENTRY_SIZE * |pngs|
  {
    var es := Entries(sizes, pngs);
    UniformLength(es, DIR_ENTRY_SIZE, |es|);
    assert es[..|es|] == es;
  }

  /** Reading `len` bytes at the offset entry `i` records gives image `i`
      back. */
  lemma ImageLocated(sizes: seq<int>, pngs: seq<seq<byte>>, i: nat)
    requires |sizes| == |pngs| && i < |pngs|
    ensures var f := Layout(sizes, pngs);
      var off := Offsets(pngs)[i];
      off + |pngs[i]| <= |f| && f[off..off + |pngs[i]|] == pngs[i]
  {
    var hd := Header(|pngs|) + Concat(Entries(sizes, pngs));
    ImagesAfterDirectory(sizes, pngs);
    OffsetAt(pngs, i);
    ImageAfter(Layout(sizes, pngs), hd, pngs, i, Offsets(pngs)[i]);
  }

  /** The images follow the header and the directory. */
  lemma ImagesAfterDirectory(sizes: seq<int>, pngs: seq<seq<byte>>)
    requires |sizes| == |pngs|
    ensures var hd := Header(|pngs|) + Concat(Entries(sizes, pngs));
      |hd| == HEADER_SIZE + DIR_ENTRY_SIZE * |pngs| && Layout(sizes, pngs) == hd + Concat(pngs)
  {
    DirectoryLength(sizes, pngs);
  }

  /** Image `i` starts after the header, the directory and `i` images. */
  lemma OffsetAt(pngs: seq<seq<byte>>, i: nat)
    requires i < |pngs|
    ensures Offsets(pngs)[i] == HEADER_SIZE + DIR_ENTRY_SIZE * |pngs| + |Concat(pngs[..i])|
  {
  }

  /** Image `i` of the images placed after `hd`. */
  lemma ImageAfter(f: seq<byte>, hd: seq<byte>, pngs: seq<seq<byte>>, i: nat, off: int)
    requires i < |pngs|
    requires f == hd + Concat(pngs) && off == |hd| + |Concat(pngs[..i])|
    ensures 0 <= off && off + |pngs[i]| <= |f| && f[off..off + |pngs[i]|] == pngs[i]
  {
    PartAt(pngs, i);
    var a := |Concat(pngs[..i])|;
    SliceOfMiddle(hd, Concat(pngs), [], a, a + |pngs[i]|);
    assert hd + Concat(pngs) + [] == hd + Concat(pngs);
  }

  /** The site's three icons: any three images of ordinary size are
      encodable, with a header of 0, 1, 3, the first entry for 16 pixels,
      and the first image right after the directory. */
  lemma SiteIcon(pngs: seq<seq<byte>>)
    requires |pngs| == 3
    requires forall i :: 0 <= i < 3 ==> |pngs[i]| < 0x1000_0000
    ensures IcoFile(ICO_SIZES, pngs).Some?
    ensures Layout(ICO_SIZES, pngs)[..6] == [0, 0, 1, 0, 3, 0]
    ensures Layout(ICO_SIZES, pngs)[6] == 16
    ensures Offsets(pngs)[0] == 54
  {
    SiteEncodable(pngs);
    HeaderFirst(ICO_SIZES, pngs);
    assert Header(3) == [0, 0, 1, 0, 3, 0];
    FirstEntryByte(ICO_SIZES, pngs);
    OffsetsChain(pngs);
  }

  /** The byte after the header is the first image's dimension. */
  lemma FirstEntryByte(sizes: seq<int>, pngs: seq<seq<byte>>)
    requires |sizes| == |pngs| > 0
    ensures |Layout(sizes, pngs)| > HEADER_SIZE && Layout(sizes, pngs)[HEADER_SIZE] == Dim(sizes[0]) % 256
  {
    EntryLocated(sizes, pngs, 0);
    EntryConstants(sizes[0], |pngs[0]|, Offsets(pngs)[0]);
    var f := Layout(sizes, pngs);
    assert f[HEADER_SIZE] == f[HEADER_SIZE..HEADER_SIZE + DIR_ENTRY_SIZE][0];
  }

  lemma SiteEncodable(pngs: seq<seq<byte>>)
    requires |pngs| == 3
    requires forall i :: 0 <= i < 3 ==> |pngs[i]| < 0x1000_0000
    ensures Encodable(ICO_SIZES, pngs)
  {
    var offs := Offsets(pngs);
    OffsetsChain(pngs);
    assert Pow256(4) == 0x1_0000_0000;
    assert offs[0] < Pow256(4) && offs[1] < Pow256(4) && offs[2] < Pow256(4);
    forall i | 0 <= i < 3 ensures EntryFits(ICO_SIZES[i], |pngs[i]|, offs[i]) {
    }
  }
}
