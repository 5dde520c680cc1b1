/** What an MP4 says about itself: the container walk of app/creative/reel.py (`probe`,
    `_walk_moov`, `_walk_trak`) over bytes, and the boxes it is meant to read back (ISO/IEC
    14496-12 section 4.2; `mvhd` section 8.2.2, `tkhd` section 8.3.2). */
module BoxWalk {
  import opened Numeric
  import opened Options

  type byte = x: int | 0 <= x < 256
  type Bytes = seq<byte>

  const TWO32 := 0x1_0000_0000

  /** A four-character code, as the number its bytes spell. */
  type FourCC = nat

  const MOOV: FourCC := 0x6D6F6F76
  const MDAT: FourCC := 0x6D646174
  const MVHD: FourCC := 0x6D766864
  const TRAK: FourCC := 0x7472616B
  const TKHD: FourCC := 0x746B6864

  /** Duration in milliseconds (the source rounds seconds to three places), and the size. */
  datatype Info = Info(duration: Option<int>, size: Option<(nat, nat)>)

  /** What `probe` answers, or the struct.error it lets out of a truncated header. */
  datatype Probed = Probed(order: seq<FourCC>, info: Info, faststart: bool) | StructError

  /** A box as the walk sees it: its type and the bytes it claims, clamped to those there are. */
  datatype Piece = Piece(kind: FourCC, body: Bytes)

  // ------------------------------------------------------------------ cutting bytes into boxes

  /** The big-endian number in the k bytes at `at`. */
  function Num(b: Bytes, at: nat, k: nat): nat
    requires at + k <= |b|
  {
    if k == 0 then 0 else 256 * Num(b, at, k - 1) + b[at + k - 1] as nat
  }

  /** b[lo:hi], which Python clamps to the bytes there are. */
  function Slice(b: Bytes, lo: nat, hi: nat): Bytes {
    var to := if hi < |b| then hi else |b|;
    if lo < to then b[lo..to] else []
  }

  /** The boxes inside a moov or a trak: 32-bit sizes only, and a size under 8 ends the walk. */
  function Inner(b: Bytes, pos: nat): seq<Piece>
    decreases |b| - pos
  {
    if pos + 8 > |b| then []
    else
      var size := Num(b, pos, 4);
      if size < 8 then []
      else [Piece(Num(b, pos + 4, 4), Slice(b, pos + 8, pos + size))] + Inner(b, pos + size)
  }

  /** A top-level box's header length and size: 64-bit when the size field is 1, the rest of the
      file when it is 0; None when the 64-bit size itself is cut off. */
  function Extent(b: Bytes, pos: nat): Option<(nat, nat)>
    requires pos + 8 <= |b|
  {
    var short := Num(b, pos, 4);
    if short == 1 then if pos + 16 > |b| then None else Some((16, Num(b, pos + 8, 8)))
    else Some((8, if short == 0 then |b| - pos else short))
  }

  /** How far the walk goes on: never less than the header, so it always ends. */
  function Stride(header: nat, size: nat): nat {
    if size >= header then size else header
  }

  /** The top-level boxes of a file; None when a header is cut off. */
  function Outer(b: Bytes, pos: nat): Option<seq<Piece>>
    decreases |b| - pos
  {
    if pos + 8 > |b| then Some([])
    else
      var extent := Extent(b, pos);
      if extent.None? then None
      else
        var (header, size) := extent.value;
        var rest := Outer(b, pos + Stride(header, size));
        if rest.None? then None
        else Some([Piece(Num(b, pos + 4, 4), Slice(b, pos + header, pos + size))] + rest.value)
  }

  // ------------------------------------------------------------------ what the boxes say

  function Millis(duration: nat, timescale: nat): int
    requires timescale > 0
  {
    Round(1000.0 * duration as real / timescale as real)
  }

  /** The duration is the seconds the header gives, to the nearest millisecond. */
  lemma NearestMillisecond(duration: nat, timescale: nat)
    requires timescale > 0
    ensures var off := Millis(duration, timescale) as real * timescale as real - 1000.0 * duration as real;
            -0.5 * timescale as real <= off <= 0.5 * timescale as real
  {
    var seconds := 1000.0 * duration as real / timescale as real;
    assert seconds * timescale as real == 1000.0 * duration as real;
    TimesInOrder(Round(seconds) as real - seconds, 0.5, timescale as real);
    TimesInOrder(-0.5, Round(seconds) as real - seconds, timescale as real);
  }

  function WithDuration(info: Info, duration: nat, timescale: nat): Info {
    if timescale == 0 then info else info.(duration := Some(Millis(duration, timescale)))
  }

  function WithSize(info: Info, w16: nat, h16: nat): Info {
    var w, h := w16 / 0x1_0000, h16 / 0x1_0000;
    if w > 0 && h > 0 && info.size.None? then info.(size := Some((w, h))) else info
  }

  /** An mvhd's body; None when version 1 promises more bytes than there are. */
  function ReadMvhd(body: Bytes, info: Info): Option<Info>
    requires |body| >= 20
  {
    if body[0] == 1 then
      if |body| < 32 then None else Some(WithDuration(info, Num(body, 24, 8), Num(body, 20, 4)))
    else Some(WithDuration(info, Num(body, 16, 4), Num(body, 12, 4)))
  }

  function ReadTkhd(body: Bytes, info: Info): Info
    requires |body| >= 84
  {
    var off := if body[0] == 1 then 96 else 84;
    if |body| < off then info else WithSize(info, Num(body, off - 8, 4), Num(body, off - 4, 4))
  }

  function FromTrakBox(p: Piece, info: Info): Info {
    if p.kind == TKHD && |p.body| >= 84 then ReadTkhd(p.body, info) else info
  }

  function FromTrak(pieces: seq<Piece>, info: Info): Info {
    if pieces == [] then info else FromTrak(pieces[1..], FromTrakBox(pieces[0], info))
  }

  function FromMoovBox(p: Piece, info: Info): Option<Info> {
    if p.kind == MVHD && |p.body| >= 20 then ReadMvhd(p.body, info)
    else if p.kind == TRAK then Some(FromTrak(Inner(p.body, 0), info))
    else Some(info)
  }

  function FromMoov(pieces: seq<Piece>, info: Info): Option<Info> {
    if pieces == [] then Some(info)
    else
      var after := FromMoovBox(pieces[0], info);
      if after.None? then None else FromMoov(pieces[1..], after.value)
  }

  function FromTopBox(p: Piece, info: Info): Option<Info> {
    if p.kind == MOOV then FromMoov(Inner(p.body, 0), info) else Some(info)
  }

  function FromFile(pieces: seq<Piece>, info: Info): Option<Info> {
    if pieces == [] then Some(info)
    else
      var after := FromTopBox(pieces[0], info);
      if after.None? then None else FromFile(pieces[1..], after.value)
  }

  function KindsOf(pieces: seq<Piece>): (kinds: seq<FourCC>)
    ensures |kinds| == |pieces| && forall i :: 0 <= i < |pieces| ==> kinds[i] == pieces[i].kind
  {
    if pieces == [] then [] else [pieces[0].kind] + KindsOf(pieces[1..])
  }

  function IndexOf(order: seq<FourCC>, kind: FourCC): nat
    requires kind in order
  {
    if order[0] == kind then 0 else 1 + IndexOf(order[1..], kind)
  }

  predicate Faststart(order: seq<FourCC>) {
    MOOV in order && MDAT in order && IndexOf(order, MOOV) < IndexOf(order, MDAT)
  }

  const NOTHING := Info(None, None)

  function Answer(pieces: seq<Piece>): Probed {
    match FromFile(pieces, NOTHING)
    case None => StructError
    case Some(info) => Probed(KindsOf(pieces), info, Faststart(KindsOf(pieces)))
  }

  function ProbeOf(mp4: Bytes): Probed {
    match Outer(mp4, 0)
    case None => StructError
    case Some(pieces) => Answer(pieces)
  }

  // ------------------------------------------------------------------ the loops

  method ReadTkhdBody(body: Bytes, known: Info) returns (info: Info)
    requires |body| >= 84
    ensures info == ReadTkhd(body, known)
  {
    info := known;
    var off := if body[0] == 1 then 96 else 84;
    if |body| >= off {
      var w, h := Num(body, off - 8, 4) / 0x1_0000, Num(body, off - 4, 4) / 0x1_0000;
      if w > 0 && h > 0 && info.size.None? {
        info := info.(size := Some((w, h)));
      }
    }
  }

  /** One turn of the walk through a trak or a moov, on what is to come. */
  lemma InnerStep(b: Bytes, pos: nat, p: Piece, size: nat, info: Info)
    requires pos + 8 <= |b| && size == Num(b, pos, 4) >= 8
    requires p == Piece(Num(b, pos + 4, 4), Slice(b, pos + 8, pos + size))
    ensures FromTrak(Inner(b, pos), info) == FromTrak(Inner(b, pos + size), FromTrakBox(p, info))
    ensures var after := FromMoovBox(p, info);
            FromMoov(Inner(b, pos), info) == if after.None? then None else FromMoov(Inner(b, pos + size), after.value)
  {
  }

  method WalkTrak(trak: Bytes, known: Info) returns (info: Info)
    ensures info == FromTrak(Inner(trak, 0), known)
  {
    info := known;
    var pos := 0;
    while pos + 8 <= |trak|
      invariant FromTrak(Inner(trak, pos), info) == FromTrak(Inner(trak, 0), known)
      decreases |trak| - pos
    {
      var size := Num(trak, pos, 4);
      if size < 8 {
        break;
      }
      var box := Piece(Num(trak, pos + 4, 4), Slice(trak, pos + 8, pos + size));
      InnerStep(trak, pos, box, size, info);
      if box.kind == TKHD && |box.body| >= 84 {
        info := ReadTkhdBody(box.body, info);
      }
      pos := pos + size;
    }
  }

  method ReadMvhdBody(body: Bytes, known: Info) returns (failed: bool, info: Info)
    requires |body| >= 20
    ensures ReadMvhd(body, known) == if failed then None else Some(info)
  {
    info, failed := known, false;
    var timescale, duration;
    if body[0] == 1 {
      if |body| < 32 {
        return true, info;
      }
      timescale, duration := Num(body, 20, 4), Num(body, 24, 8);
    } else {
      timescale, duration := Num(body, 12, 4), Num(body, 16, 4);
    }
    if timescale > 0 {
      info := info.(duration := Some(Millis(duration, timescale)));
    }
  }

  method WalkMoov(moov: Bytes, known: Info) returns (failed: bool, info: Info)
    ensures FromMoov(Inner(moov, 0), known) == if failed then None else Some(info)
  {
    info, failed := known, false;
    var pos := 0;
    while pos + 8 <= |moov|
      invariant !failed && FromMoov(Inner(moov, pos), info) == FromMoov(Inner(moov, 0), known)
      decreases |moov| - pos
    {
      var size := Num(moov, pos, 4);
      if size < 8 {
        break;
      }
      var box := Piece(Num(moov, pos + 4, 4), Slice(moov, pos + 8, pos + size));
      InnerStep(moov, pos, box, size, info);
      if box.kind == MVHD && |box.body| >= 20 {
        failed, info := ReadMvhdBody(box.body, info);
        if failed {
          return;
        }
      } else if box.kind == TRAK {
        info := WalkTrak(box.body, info);
      }
      pos := pos + size;
    }
  }

  method ReadExtent(mp4: Bytes, pos: nat) returns (failed: bool, header: nat, size: nat)
    requires pos + 8 <= |mp4|
    ensures Extent(mp4, pos) == if failed then None else Some((header, size))
  {
    size, header, failed := Num(mp4, pos, 4), 8, false;
    if size == 1 {
      if pos + 16 > |mp4| {
        return true, header, size;
      }
      size, header := Num(mp4, pos + 8, 8), 16;
    } else if size == 0 {
      size := |mp4| - pos;
    }
  }

  /** The boxes still to come after `done`, or the failure that ends the walk. */
  function Resumed(done: seq<Piece>, rest: Option<seq<Piece>>): Option<seq<Piece>> {
    if rest.None? then None else Some(done + rest.value)
  }

  lemma NothingResumed(all: Option<seq<Piece>>)
    ensures Resumed([], all) == all
  {
    if all.Some? { assert [] + all.value == all.value; }
  }

  lemma {:induction false} FromFileResumes(done: seq<Piece>, rest: seq<Piece>, info: Info)
    ensures var first := FromFile(done, info);
            FromFile(done + rest, info) == if first.None? then None else FromFile(rest, first.value)
    decreases |done|
  {
    if done == [] {
      assert done + rest == rest;
    } else {
      assert (done + rest)[1..] == done[1..] + rest;
      var after := FromTopBox(done[0], info);
      if after.Some? { FromFileResumes(done[1..], rest, after.value); }
    }
  }

  lemma OuterStep(b: Bytes, pos: nat, done: seq<Piece>, header: nat, size: nat)
    requires pos + 8 <= |b| && Extent(b, pos) == Some((header, size))
    ensures var p := Piece(Num(b, pos + 4, 4), Slice(b, pos + header, pos + size));
            Resumed(done, Outer(b, pos)) == Resumed(done + [p], Outer(b, pos + Stride(header, size)))
  {
    var p := Piece(Num(b, pos + 4, 4), Slice(b, pos + header, pos + size));
    var rest := Outer(b, pos + Stride(header, size));
    if rest.Some? { assert done + ([p] + rest.value) == done + [p] + rest.value; }
  }

  /** One turn of the outer loop, on what is done and what is to come. */
  lemma TurnOf(b: Bytes, pos: nat, done: seq<Piece>, header: nat, size: nat, p: Piece, info: Info)
    requires pos + 8 <= |b| && Extent(b, pos) == Some((header, size)) && FromFile(done, NOTHING) == Some(info)
    requires p == Piece(Num(b, pos + 4, 4), Slice(b, pos + header, pos + size))
    ensures Resumed(done, Outer(b, pos)) == Resumed(done + [p], Outer(b, pos + Stride(header, size)))
    ensures FromFile(done + [p], NOTHING) == FromTopBox(p, info) && KindsOf(done + [p]) == KindsOf(done) + [p.kind]
  {
    OuterStep(b, pos, done, header, size);
    FromFileResumes(done, [p], NOTHING);
  }

  // How the walk can end, with `done` behind it.

  lemma CutOff(mp4: Bytes, pos: nat, done: seq<Piece>)
    requires Outer(mp4, 0) == Resumed(done, Outer(mp4, pos)) && pos + 8 <= |mp4| && Extent(mp4, pos).None?
    ensures ProbeOf(mp4) == StructError
  {
  }

  lemma Broken(mp4: Bytes, done: seq<Piece>, rest: Option<seq<Piece>>)
    requires Outer(mp4, 0) == Resumed(done, rest) && FromFile(done, NOTHING).None?
    ensures ProbeOf(mp4) == StructError
  {
    if rest.Some? { FromFileResumes(done, rest.value, NOTHING); }
  }

  lemma Whole(mp4: Bytes, pos: nat, done: seq<Piece>, info: Info)
    requires Outer(mp4, 0) == Resumed(done, Outer(mp4, pos)) && pos + 8 > |mp4| && FromFile(done, NOTHING) == Some(info)
    ensures ProbeOf(mp4) == Probed(KindsOf(done), info, Faststart(KindsOf(done)))
  {
    assert done + [] == done;
  }

  method Probe(mp4: Bytes) returns (out: Probed)
    ensures out == ProbeOf(mp4)
  {
    var order: seq<FourCC>, info, pos := [], NOTHING, 0;
    ghost var done: seq<Piece> := [];
    NothingResumed(Outer(mp4, 0));
    while pos + 8 <= |mp4|
      invariant Outer(mp4, 0) == Resumed(done, Outer(mp4, pos))
      invariant FromFile(done, NOTHING) == Some(info) && order == KindsOf(done)
      decreases |mp4| - pos
    {
      var failed, header, size := ReadExtent(mp4, pos);
      if failed {
        CutOff(mp4, pos, done);
        return StructError;
      }
      var box := Piece(Num(mp4, pos + 4, 4), Slice(mp4, pos + header, pos + size));
      TurnOf(mp4, pos, done, header, size, box, info);
      done := done + [box];
      pos := pos + Stride(header, size);
      order := order + [box.kind];
      if box.kind == MOOV {
        failed, info := WalkMoov(box.body, info);
        if failed {
          Broken(mp4, done, Outer(mp4, pos));
          return StructError;
        }
      }
    }
    Whole(mp4, pos, done, info);
    out := Probed(order, info, Faststart(order));
  }

  // ------------------------------------------------------------------ writing

  /** The last k bytes of n, big-endian. */
  function ToBe(n: nat, k: nat): (b: Bytes)
    ensures |b| == k
  {
    if k == 0 then [] else ToBe(n / 256, k - 1) + [n % 256]
  }

  function Pow256(k: nat): nat {
    if k == 0 then 1 else 256 * Pow256(k - 1)
  }

  /** `x` stands in `b` at `at`. */
  predicate Stands(b: Bytes, at: nat, x: Bytes) {
    at + |x| <= |b| && b[at..at + |x|] == x
  }

  /** The pieces of a concatenation stand one after the other. */
  lemma StandsSplit(b: Bytes, at: nat, x: Bytes, y: Bytes)
    requires Stands(b, at, x + y)
    ensures Stands(b, at, x) && Stands(b, at + |x|, y)
  {
    var w := b[at..at + |x| + |y|];
    assert w[..|x|] == x && w[|x|..] == y;
    assert b[at..at + |x|] == w[..|x|] && b[at + |x|..at + |x| + |y|] == w[|x|..];
  }

  lemma StandsSlice(b: Bytes, at: nat, x: Bytes)
    requires Stands(b, at, x)
    ensures Slice(b, at, at + |x|) == x
  {
  }

  lemma WholeStands(b: Bytes)
    ensures Stands(b, 0, b)
  {
  }

  /** Reading back a number written at `at`. */
  lemma {:induction false} ReadBack(b: Bytes, at: nat, n: nat, k: nat)
    requires n < Pow256(k) && Stands(b, at, ToBe(n, k))
    ensures Num(b, at, k) == n
  {
    if k > 0 {
      StandsSplit(b, at, ToBe(n / 256, k - 1), [n % 256]);
      ReadBack(b, at, n / 256, k - 1);
      assert b[at + k - 1] == b[at + (k - 1)..at + (k - 1) + 1][0];
    }
  }

  lemma Read32(b: Bytes, at: nat, n: nat)
    requires n < TWO32 && Stands(b, at, ToBe(n, 4))
    ensures Num(b, at, 4) == n
  {
    assert Pow256(2) == 0x1_0000;
    ReadBack(b, at, n, 4);
  }

  lemma Read64(b: Bytes, at: nat, n: nat)
    requires n < TWO32 * TWO32 && Stands(b, at, ToBe(n, 8))
    ensures Num(b, at, 8) == n
  {
    assert Pow256(2) == 0x1_0000;
    assert Pow256(6) == TWO32 * 0x1_0000;
    ReadBack(b, at, n, 8);
  }

  predicate Fits(p: Piece) {
    p.kind < TWO32 && 8 + |p.body| < TWO32
  }

  /** A box with a 32-bit size. */
  function Enc(p: Piece): (b: Bytes)
    requires Fits(p)
    ensures |b| == 8 + |p.body|
  {
    ToBe(8 + |p.body|, 4) + ToBe(p.kind, 4) + p.body
  }

  ghost predicate ReadsAs(b: Bytes, pos: nat, p: Piece) {
    && pos + 8 + |p.body| <= |b| && Num(b, pos, 4) == 8 + |p.body| && Num(b, pos + 4, 4) == p.kind
    && Slice(b, pos + 8, pos + 8 + |p.body|) == p.body
  }

  /** Such a box, wherever it stands, reads back as itself. */
  lemma EncReads(b: Bytes, pos: nat, p: Piece)
    requires Fits(p) && Stands(b, pos, Enc(p))
    ensures ReadsAs(b, pos, p)
  {
    var size, kind := ToBe(8 + |p.body|, 4), ToBe(p.kind, 4);
    StandsSplit(b, pos, size + kind, p.body);
    StandsSplit(b, pos, size, kind);
    Read32(b, pos, 8 + |p.body|);
    Read32(b, pos + 4, p.kind);
    StandsSlice(b, pos + 8, p.body);
  }

  predicate AllFit(ps: seq<Piece>) {
    ps == [] || (Fits(ps[0]) && AllFit(ps[1..]))
  }

  function EncAll(ps: seq<Piece>): Bytes
    requires AllFit(ps)
  {
    if ps == [] then [] else Enc(ps[0]) + EncAll(ps[1..])
  }

  /** The first of the boxes left: the walk finds it, and the others stand where it goes on. */
  lemma InnerFirst(b: Bytes, pos: nat, whole: Bytes, p: Piece, others: Bytes, next: nat)
    requires Fits(p) && whole == Enc(p) + others && next == pos + |Enc(p)|
    requires Stands(b, pos, whole) && pos + |whole| == |b|
    ensures Inner(b, pos) == [p] + Inner(b, next)
    ensures Stands(b, next, others) && next + |others| == |b|
  {
    StandsSplit(b, pos, Enc(p), others);
    EncReads(b, pos, p);
  }

  /** Boxes written end to end are the boxes the inner walk finds. */
  lemma {:induction false} InnerReads(b: Bytes, pos: nat, ps: seq<Piece>)
    requires AllFit(ps) && Stands(b, pos, EncAll(ps)) && pos + |EncAll(ps)| == |b|
    ensures Inner(b, pos) == ps
    decreases |ps|
  {
    if ps != [] {
      var next := pos + 8 + |ps[0].body|;
      InnerFirst(b, pos, EncAll(ps), ps[0], EncAll(ps[1..]), next);
      InnerReads(b, next, ps[1..]);
    }
  }

  lemma InnerReadsAll(ps: seq<Piece>)
    requires AllFit(ps)
    ensures Inner(EncAll(ps), 0) == ps
  {
    WholeStands(EncAll(ps));
    InnerReads(EncAll(ps), 0, ps);
  }

  // ------------------------------------------------------------------ headers

  /** tkhd: version, what this reader skips, the 16.16 sizes, whatever follows. */
  datatype TrackHeader = TrackHeader(version: byte, skipped: Bytes, w16: nat, h16: nat, rest: Bytes)
  datatype TrakChild = Tkhd(header: TrackHeader) | OtherInTrak(piece: Piece)

  /** mvhd: version, the two times, timescale and duration, whatever follows. */
  datatype MovieHeader = MovieHeader(version: byte, skipped: Bytes, timescale: nat, duration: nat, rest: Bytes)
  datatype MoovChild = Mvhd(movie: MovieHeader) | Trak(children: seq<TrakChild>) | OtherInMoov(piece: Piece)

  predicate TrackHeaderOk(h: TrackHeader) {
    |h.skipped| == (if h.version == 1 then 87 else 75) && h.w16 < TWO32 && h.h16 < TWO32
  }

  function TkhdBody(h: TrackHeader): Bytes {
    [h.version] + h.skipped + ToBe(h.w16, 4) + ToBe(h.h16, 4) + h.rest
  }

  lemma TkhdReads(h: TrackHeader, info: Info)
    requires TrackHeaderOk(h)
    ensures FromTrakBox(Piece(TKHD, TkhdBody(h)), info) == WithSize(info, h.w16, h.h16)
  {
    var body, front := TkhdBody(h), [h.version] + h.skipped;
    WholeStands(body);
    StandsSplit(body, 0, front + ToBe(h.w16, 4) + ToBe(h.h16, 4), h.rest);
    StandsSplit(body, 0, front + ToBe(h.w16, 4), ToBe(h.h16, 4));
    StandsSplit(body, 0, front, ToBe(h.w16, 4));
    Read32(body, |front|, h.w16);
    Read32(body, |front| + 4, h.h16);
  }

  predicate MovieHeaderOk(h: MovieHeader) {
    && |h.skipped| == (if h.version == 1 then 19 else 11)
    && h.timescale < TWO32 && h.duration < (if h.version == 1 then TWO32 * TWO32 else TWO32)
  }

  function MvhdBody(h: MovieHeader): Bytes {
    [h.version] + h.skipped + ToBe(h.timescale, 4) + ToBe(h.duration, if h.version == 1 then 8 else 4) + h.rest
  }

  lemma MvhdReads(h: MovieHeader, info: Info)
    requires MovieHeaderOk(h)
    ensures FromMoovBox(Piece(MVHD, MvhdBody(h)), info) == Some(WithDuration(info, h.duration, h.timescale))
  {
    var body, front := MvhdBody(h), [h.version] + h.skipped;
    var length := ToBe(h.duration, if h.version == 1 then 8 else 4);
    WholeStands(body);
    StandsSplit(body, 0, front + ToBe(h.timescale, 4) + length, h.rest);
    StandsSplit(body, 0, front + ToBe(h.timescale, 4), length);
    StandsSplit(body, 0, front, ToBe(h.timescale, 4));
    Read32(body, |front|, h.timescale);
    if h.version == 1 { Read64(body, |front| + 4, h.duration); } else { Read32(body, |front| + 4, h.duration); }
  }

  function TrakPiece(c: TrakChild): Piece {
    if c.Tkhd? then Piece(TKHD, TkhdBody(c.header)) else c.piece
  }

  predicate TrakChildOk(c: TrakChild) {
    Fits(TrakPiece(c)) && (if c.Tkhd? then TrackHeaderOk(c.header) else c.piece.kind != TKHD)
  }

  /** What a child adds: the first track header with both sides at least one pixel wins. */
  function TrakChildSays(c: TrakChild, info: Info): Info {
    if c.Tkhd? then WithSize(info, c.header.w16, c.header.h16) else info
  }

  predicate TrakOk(children: seq<TrakChild>) {
    children == [] || (TrakChildOk(children[0]) && TrakOk(children[1..]))
  }

  function TrakPieces(children: seq<TrakChild>): seq<Piece> {
    if children == [] then [] else [TrakPiece(children[0])] + TrakPieces(children[1..])
  }

  function TrakSays(children: seq<TrakChild>, info: Info): Info {
    if children == [] then info else TrakSays(children[1..], TrakChildSays(children[0], info))
  }

  lemma TrakChildReads(c: TrakChild, info: Info)
    requires TrakChildOk(c)
    ensures FromTrakBox(TrakPiece(c), info) == TrakChildSays(c, info)
  {
    if c.Tkhd? { TkhdReads(c.header, info); }
  }

  lemma {:induction false} TrakReads(children: seq<TrakChild>, info: Info)
    requires TrakOk(children)
    ensures AllFit(TrakPieces(children)) && FromTrak(TrakPieces(children), info) == TrakSays(children, info)
    decreases |children|
  {
    if children != [] {
      TrakChildReads(children[0], info);
      TrakReads(children[1..], TrakChildSays(children[0], info));
      assert TrakPieces(children)[1..] == TrakPieces(children[1..]);
    }
  }

  predicate TrakFits(children: seq<TrakChild>) {
    TrakOk(children) && AllFit(TrakPieces(children))
  }

  function MoovPiece(c: MoovChild): Piece
    requires c.Trak? ==> TrakFits(c.children)
  {
    match c
    case Mvhd(h) => Piece(MVHD, MvhdBody(h))
    case Trak(children) => Piece(TRAK, EncAll(TrakPieces(children)))
    case OtherInMoov(p) => p
  }

  predicate MoovChildOk(c: MoovChild) {
    && (c.Trak? ==> TrakFits(c.children)) && Fits(MoovPiece(c))
    && (c.Mvhd? ==> MovieHeaderOk(c.movie))
    && (c.OtherInMoov? ==> c.piece.kind != MVHD && c.piece.kind != TRAK)
  }

  function MoovChildSays(c: MoovChild, info: Info): Info {
    match c
    case Mvhd(h) => WithDuration(info, h.duration, h.timescale)
    case Trak(children) => TrakSays(children, info)
    case OtherInMoov(_) => info
  }

  predicate MoovOk(children: seq<MoovChild>) {
    children == [] || (MoovChildOk(children[0]) && MoovOk(children[1..]))
  }

  function MoovPieces(children: seq<MoovChild>): seq<Piece>
    requires MoovOk(children)
  {
    if children == [] then [] else [MoovPiece(children[0])] + MoovPieces(children[1..])
  }

  function MoovSays(children: seq<MoovChild>, info: Info): Info {
    if children == [] then info else MoovSays(children[1..], MoovChildSays(children[0], info))
  }

  lemma MoovChildReads(c: MoovChild, info: Info)
    requires MoovChildOk(c)
    ensures FromMoovBox(MoovPiece(c), info) == Some(MoovChildSays(c, info))
  {
    match c
    case Mvhd(h) => MvhdReads(h, info);
    case Trak(children) =>
      InnerReadsAll(TrakPieces(children));
      TrakReads(children, info);
    case OtherInMoov(_) =>
  }

  lemma {:induction false} MoovReads(children: seq<MoovChild>, info: Info)
    requires MoovOk(children)
    ensures AllFit(MoovPieces(children)) && FromMoov(MoovPieces(children), info) == Some(MoovSays(children, info))
    decreases |children|
  {
    if children != [] {
      MoovChildReads(children[0], info);
      MoovReads(children[1..], MoovChildSays(children[0], info));
      assert MoovPieces(children)[1..] == MoovPieces(children[1..]);
    }
  }

  // ------------------------------------------------------------------ whole files

  /** How a top-level box states its size: in 32 bits, in 64, or "to the end of the file". */
  datatype Form = Short | Long | ToEnd

  datatype TopBox = Movie(form: Form, children: seq<MoovChild>) | Other(form: Form, piece: Piece)

  predicate MovieFits(t: TopBox) {
    t.Movie? ==> MoovOk(t.children) && AllFit(MoovPieces(t.children))
  }

  function TopPiece(t: TopBox): Piece
    requires MovieFits(t)
  {
    if t.Movie? then Piece(MOOV, EncAll(MoovPieces(t.children))) else t.piece
  }

  predicate FormFits(form: Form, p: Piece, last: bool) {
    p.kind < TWO32
    && match form
       case Short => 8 + |p.body| < TWO32
       case Long => 16 + |p.body| < TWO32 * TWO32
       case ToEnd => last
  }

  predicate TopOk(t: TopBox) {
    MovieFits(t) && (t.Other? ==> t.piece.kind != MOOV)
  }

  function HeaderLength(form: Form): nat {
    if form.Long? then 16 else 8
  }

  function EncTop(form: Form, p: Piece): (b: Bytes)
    ensures |b| == HeaderLength(form) + |p.body|
  {
    match form
    case Short => ToBe(8 + |p.body|, 4) + ToBe(p.kind, 4) + p.body
    case Long => ToBe(1, 4) + ToBe(p.kind, 4) + ToBe(16 + |p.body|, 8) + p.body
    case ToEnd => ToBe(0, 4) + ToBe(p.kind, 4) + p.body
  }

  ghost predicate TopReadsAs(b: Bytes, pos: nat, header: nat, p: Piece) {
    && pos + header + |p.body| <= |b| && header >= 8
    && Extent(b, pos) == Some((header, header + |p.body|)) && Num(b, pos + 4, 4) == p.kind
    && Slice(b, pos + header, pos + header + |p.body|) == p.body
  }

  lemma LongReads(b: Bytes, pos: nat, p: Piece)
    requires FormFits(Long, p, false) && Stands(b, pos, EncTop(Long, p))
    ensures TopReadsAs(b, pos, 16, p)
  {
    var one, kind, size := ToBe(1, 4), ToBe(p.kind, 4), ToBe(16 + |p.body|, 8);
    StandsSplit(b, pos, one + kind + size, p.body);
    StandsSplit(b, pos, one + kind, size);
    StandsSplit(b, pos, one, kind);
    Read32(b, pos, 1);
    Read32(b, pos + 4, p.kind);
    Read64(b, pos + 8, 16 + |p.body|);
    StandsSlice(b, pos + 16, p.body);
  }

  lemma EightReads(b: Bytes, pos: nat, form: Form, p: Piece)
    requires !form.Long? && FormFits(form, p, true) && Stands(b, pos, EncTop(form, p))
    requires form.ToEnd? ==> pos + |EncTop(form, p)| == |b|
    ensures TopReadsAs(b, pos, 8, p)
  {
    var size := if form.Short? then 8 + |p.body| else 0;
    StandsSplit(b, pos, ToBe(size, 4) + ToBe(p.kind, 4), p.body);
    StandsSplit(b, pos, ToBe(size, 4), ToBe(p.kind, 4));
    Read32(b, pos, size);
    Read32(b, pos + 4, p.kind);
    StandsSlice(b, pos + 8, p.body);
  }

  lemma OuterFound(b: Bytes, pos: nat, header: nat, p: Piece)
    requires TopReadsAs(b, pos, header, p)
    ensures Outer(b, pos) == Resumed([p], Outer(b, pos + header + |p.body|))
  {
  }

  /** A top-level box, wherever it stands, is the next box the outer walk finds. */
  lemma OuterFirst(b: Bytes, pos: nat, form: Form, p: Piece, last: bool)
    requires FormFits(form, p, last) && Stands(b, pos, EncTop(form, p)) && (last ==> pos + |EncTop(form, p)| == |b|)
    ensures Outer(b, pos) == Resumed([p], Outer(b, pos + |EncTop(form, p)|))
  {
    if form.Long? { LongReads(b, pos, p); } else { EightReads(b, pos, form, p); }
    OuterFound(b, pos, HeaderLength(form), p);
  }

  /** A box and how its size is stated; only the last of a file may run to the end. */
  datatype Framed = Framed(form: Form, piece: Piece)

  predicate FramedOk(fs: seq<Framed>) {
    fs == [] || (FormFits(fs[0].form, fs[0].piece, |fs| == 1) && FramedOk(fs[1..]))
  }

  function EncFramed(fs: seq<Framed>): Bytes {
    if fs == [] then [] else EncTop(fs[0].form, fs[0].piece) + EncFramed(fs[1..])
  }

  function Pieces(fs: seq<Framed>): seq<Piece> {
    if fs == [] then [] else [fs[0].piece] + Pieces(fs[1..])
  }

  /** The first of the boxes left: the walk finds it, and the others stand where it goes on. */
  lemma FrameFirst(b: Bytes, pos: nat, whole: Bytes, f: Framed, others: Bytes, next: nat, last: bool)
    requires FormFits(f.form, f.piece, last) && (last ==> others == [])
    requires whole == EncTop(f.form, f.piece) + others && next == pos + |EncTop(f.form, f.piece)|
    requires Stands(b, pos, whole) && pos + |whole| == |b|
    ensures Outer(b, pos) == Resumed([f.piece], Outer(b, next))
    ensures Stands(b, next, others) && next + |others| == |b|
  {
    StandsSplit(b, pos, EncTop(f.form, f.piece), others);
    OuterFirst(b, pos, f.form, f.piece, last);
  }

  lemma {:induction false} OuterReads(b: Bytes, pos: nat, fs: seq<Framed>)
    requires FramedOk(fs) && Stands(b, pos, EncFramed(fs)) && pos + |EncFramed(fs)| == |b|
    ensures Outer(b, pos) == Some(Pieces(fs))
    decreases |fs|
  {
    if fs != [] {
      var next := pos + HeaderLength(fs[0].form) + |fs[0].piece.body|;
      FrameFirst(b, pos, EncFramed(fs), fs[0], EncFramed(fs[1..]), next, |fs| == 1);
      OuterReads(b, next, fs[1..]);
    }
  }

  predicate TopsOk(boxes: seq<TopBox>) {
    boxes == [] || (TopOk(boxes[0]) && TopsOk(boxes[1..]))
  }

  function Frames(boxes: seq<TopBox>): seq<Framed>
    requires TopsOk(boxes)
  {
    if boxes == [] then [] else [Framed(boxes[0].form, TopPiece(boxes[0]))] + Frames(boxes[1..])
  }

  /** A file: well-formed boxes end to end. */
  predicate FileOk(boxes: seq<TopBox>) {
    TopsOk(boxes) && FramedOk(Frames(boxes))
  }

  function EncFile(boxes: seq<TopBox>): Bytes
    requires TopsOk(boxes)
  {
    EncFramed(Frames(boxes))
  }

  function TopSays(t: TopBox, info: Info): Info {
    if t.Movie? then MoovSays(t.children, info) else info
  }

  function FileSays(boxes: seq<TopBox>, info: Info): Info {
    if boxes == [] then info else FileSays(boxes[1..], TopSays(boxes[0], info))
  }

  lemma TopBoxReads(t: TopBox, info: Info)
    requires TopOk(t)
    ensures FromTopBox(TopPiece(t), info) == Some(TopSays(t, info))
  {
    if t.Movie? {
      InnerReadsAll(MoovPieces(t.children));
      MoovReads(t.children, info);
    }
  }

  lemma {:induction false} FileReads(boxes: seq<TopBox>, info: Info)
    requires TopsOk(boxes)
    ensures FromFile(Pieces(Frames(boxes)), info) == Some(FileSays(boxes, info))
    decreases |boxes|
  {
    if boxes != [] {
      TopBoxReads(boxes[0], info);
      FileReads(boxes[1..], TopSays(boxes[0], info));
      assert Frames(boxes)[1..] == Frames(boxes[1..]);
      assert Pieces(Frames(boxes))[1..] == Pieces(Frames(boxes[1..]));
    }
  }

  function FileKinds(boxes: seq<TopBox>): seq<FourCC>
    requires TopsOk(boxes)
  {
    KindsOf(Pieces(Frames(boxes)))
  }

  /** Write any file of well-formed boxes -- sizes in 32 bits, in 64, or running to the end -- and
      the probe reads back exactly its types in order, what its movie boxes say, and whether it
      can start before it is all there. */
  lemma ProbeReadsBack(boxes: seq<TopBox>)
    requires FileOk(boxes)
    ensures ProbeOf(EncFile(boxes)) == Probed(FileKinds(boxes), FileSays(boxes, NOTHING), Faststart(FileKinds(boxes)))
  {
    WholeStands(EncFile(boxes));
    OuterReads(EncFile(boxes), 0, Frames(boxes));
    FileReads(boxes, NOTHING);
  }

  lemma {:induction false} IndexOfIsFirst(order: seq<FourCC>, kind: FourCC)
    requires kind in order
    ensures var i := IndexOf(order, kind);
            i < |order| && order[i] == kind && forall j :: 0 <= j < i ==> order[j] != kind
  {
    if order[0] != kind { IndexOfIsFirst(order[1..], kind); }
  }

  /** faststart: there is an mdat, and some moov comes before every mdat. */
  lemma FaststartMeans(order: seq<FourCC>)
    ensures Faststart(order)
            <==> MDAT in order
                 && (exists i :: 0 <= i < |order| && order[i] == MOOV && forall j :: 0 <= j <= i ==> order[j] != MDAT)
  {
    if MOOV in order && MDAT in order {
      IndexOfIsFirst(order, MOOV);
      IndexOfIsFirst(order, MDAT);
      assert order[IndexOf(order, MOOV)] != order[IndexOf(order, MDAT)];
    }
  }

  // ------------------------------------------------------------------ in the numbers written

  function TrackHeaders(children: seq<TrakChild>): seq<TrackHeader> {
    if children == [] then []
    else (if children[0].Tkhd? then [children[0].header] else []) + TrackHeaders(children[1..])
  }

  /** The track headers of a movie box, in the order they stand in the file, */
  function MoovTracks(children: seq<MoovChild>): seq<TrackHeader> {
    if children == [] then []
    else (if children[0].Trak? then TrackHeaders(children[0].children) else []) + MoovTracks(children[1..])
  }

  /** its movie headers, */
  function MoovMovies(children: seq<MoovChild>): seq<MovieHeader> {
    if children == [] then []
    else (if children[0].Mvhd? then [children[0].movie] else []) + MoovMovies(children[1..])
  }

  /** and those of a whole file. */
  function FileTracks(boxes: seq<TopBox>): seq<TrackHeader> {
    if boxes == [] then []
    else (if boxes[0].Movie? then MoovTracks(boxes[0].children) else []) + FileTracks(boxes[1..])
  }

  function FileMovies(boxes: seq<TopBox>): seq<MovieHeader> {
    if boxes == [] then []
    else (if boxes[0].Movie? then MoovMovies(boxes[0].children) else []) + FileMovies(boxes[1..])
  }

  /** Both 16.16 sides at least one pixel. */
  predicate Sized(h: TrackHeader) {
    h.w16 / 0x1_0000 > 0 && h.h16 / 0x1_0000 > 0
  }

  /** The size of the first track header that has one; none when none has. */
  ghost predicate FirstSized(tracks: seq<TrackHeader>, size: Option<(nat, nat)>) {
    && (size.None? <==> forall k :: 0 <= k < |tracks| ==> !Sized(tracks[k]))
    && (forall k :: 0 <= k < |tracks| && Sized(tracks[k]) && (forall j :: 0 <= j < k ==> !Sized(tracks[j])) ==>
          size == Some((tracks[k].w16 / 0x1_0000, tracks[k].h16 / 0x1_0000)))
  }

  predicate Timed(h: MovieHeader) {
    h.timescale > 0
  }

  /** The duration of the last movie header that has a timescale; none when none has. */
  ghost predicate LastTimed(movies: seq<MovieHeader>, duration: Option<int>) {
    && (duration.None? <==> forall k :: 0 <= k < |movies| ==> !Timed(movies[k]))
    && (forall k :: 0 <= k < |movies| && Timed(movies[k]) && (forall j :: k < j < |movies| ==> !Timed(movies[j])) ==>
          duration == Some(Millis(movies[k].duration, movies[k].timescale)))
  }

  /** The track headers one after another, and the movie headers. */
  function WithTracks(info: Info, tracks: seq<TrackHeader>): Info
    decreases |tracks|
  {
    if tracks == [] then info else WithTracks(WithSize(info, tracks[0].w16, tracks[0].h16), tracks[1..])
  }

  function WithMovies(info: Info, movies: seq<MovieHeader>): Info
    decreases |movies|
  {
    if movies == [] then info
    else WithMovies(WithDuration(info, movies[0].duration, movies[0].timescale), movies[1..])
  }

  lemma {:induction false} WithTracksConcat(info: Info, a: seq<TrackHeader>, b: seq<TrackHeader>)
    ensures WithTracks(info, a + b) == WithTracks(WithTracks(info, a), b)
    decreases |a|
  {
    if a == [] {
      assert a + b == b;
    } else {
      assert (a + b)[1..] == a[1..] + b;
      WithTracksConcat(WithSize(info, a[0].w16, a[0].h16), a[1..], b);
    }
  }

  lemma {:induction false} WithMoviesConcat(info: Info, a: seq<MovieHeader>, b: seq<MovieHeader>)
    ensures WithMovies(info, a + b) == WithMovies(WithMovies(info, a), b)
    decreases |a|
  {
    if a == [] {
      assert a + b == b;
    } else {
      assert (a + b)[1..] == a[1..] + b;
      WithMoviesConcat(WithDuration(info, a[0].duration, a[0].timescale), a[1..], b);
    }
  }

  lemma {:induction false} TracksApart(info: Info, duration: Option<int>, tracks: seq<TrackHeader>)
    ensures WithTracks(info.(duration := duration), tracks) == WithTracks(info, tracks).(duration := duration)
    decreases |tracks|
  {
    if tracks != [] {
      TracksApart(WithSize(info, tracks[0].w16, tracks[0].h16), duration, tracks[1..]);
    }
  }

  /** A movie header and the track headers around it do not disturb each other. */
  lemma {:induction false} TracksAfterMovies(info: Info, movies: seq<MovieHeader>, tracks: seq<TrackHeader>)
    ensures WithMovies(WithTracks(info, tracks), movies) == WithTracks(WithMovies(info, movies), tracks)
    decreases |movies|
  {
    if movies != [] {
      var h := movies[0];
      TracksApart(info, WithDuration(info, h.duration, h.timescale).duration, tracks);
      TracksApart(info, info.duration, tracks);
      TracksAfterMovies(WithDuration(info, h.duration, h.timescale), movies[1..], tracks);
    }
  }

  lemma {:induction false} TrakSaysTracks(children: seq<TrakChild>, info: Info)
    ensures TrakSays(children, info) == WithTracks(info, TrackHeaders(children))
  {
    if children != [] {
      TrakSaysTracks(children[1..], TrakChildSays(children[0], info));
      if children[0].Tkhd? {
        assert TrackHeaders(children)[1..] == TrackHeaders(children[1..]);
      } else {
        assert TrackHeaders(children) == TrackHeaders(children[1..]);
      }
    }
  }

  /** What a stretch of headers says, then what the next stretch says. */
  lemma HeadersInTurn(info: Info, m: seq<MovieHeader>, t: seq<TrackHeader>, movies: seq<MovieHeader>,
                      tracks: seq<TrackHeader>)
    ensures WithTracks(WithMovies(WithTracks(WithMovies(info, m), t), movies), tracks)
            == WithTracks(WithMovies(info, m + movies), t + tracks)
  {
    TracksAfterMovies(WithMovies(info, m), movies, t);
    WithMoviesConcat(info, m, movies);
    WithTracksConcat(WithMovies(info, m + movies), t, tracks);
  }

  lemma MoovChildSaysHeaders(c: MoovChild, info: Info) returns (m: seq<MovieHeader>, t: seq<TrackHeader>)
    ensures m == (if c.Mvhd? then [c.movie] else []) && t == (if c.Trak? then TrackHeaders(c.children) else [])
    ensures MoovChildSays(c, info) == WithTracks(WithMovies(info, m), t)
  {
    m, t := if c.Mvhd? then [c.movie] else [], if c.Trak? then TrackHeaders(c.children) else [];
    match c
    case Mvhd(h) => assert m[1..] == [];
    case Trak(children) => TrakSaysTracks(children, info);
    case OtherInMoov(_) =>
  }

  lemma {:induction false} MoovSaysHeaders(children: seq<MoovChild>, info: Info)
    ensures MoovSays(children, info) == WithTracks(WithMovies(info, MoovMovies(children)), MoovTracks(children))
    decreases |children|
  {
    if children != [] {
      var m, t := MoovChildSaysHeaders(children[0], info);
      MoovSaysHeaders(children[1..], MoovChildSays(children[0], info));
      HeadersInTurn(info, m, t, MoovMovies(children[1..]), MoovTracks(children[1..]));
    }
  }

  lemma {:induction false} FileSaysHeaders(boxes: seq<TopBox>, info: Info)
    ensures FileSays(boxes, info) == WithTracks(WithMovies(info, FileMovies(boxes)), FileTracks(boxes))
    decreases |boxes|
  {
    if boxes != [] {
      FileSaysHeaders(boxes[1..], TopSays(boxes[0], info));
      if boxes[0].Movie? {
        var c := boxes[0].children;
        MoovSaysHeaders(c, info);
        HeadersInTurn(info, MoovMovies(c), MoovTracks(c), FileMovies(boxes[1..]), FileTracks(boxes[1..]));
      } else {
        assert FileMovies(boxes) == FileMovies(boxes[1..]) && FileTracks(boxes) == FileTracks(boxes[1..]);
      }
    }
  }

  lemma {:induction false} FirstSizedWins(info: Info, tracks: seq<TrackHeader>)
    ensures WithTracks(info, tracks).duration == info.duration
    ensures if info.size.Some? then WithTracks(info, tracks).size == info.size
            else FirstSized(tracks, WithTracks(info, tracks).size)
    decreases |tracks|
  {
    if tracks != [] {
      FirstSizedWins(WithSize(info, tracks[0].w16, tracks[0].h16), tracks[1..]);
      var size := WithTracks(info, tracks).size;
      if info.size.None? && !Sized(tracks[0]) { FirstSizedBehind(tracks, size); }
    }
  }

  lemma FirstSizedBehind(tracks: seq<TrackHeader>, size: Option<(nat, nat)>)
    requires tracks != [] && !Sized(tracks[0]) && FirstSized(tracks[1..], size)
    ensures FirstSized(tracks, size)
  {
    var rest := tracks[1..];
    assert forall k :: 0 < k < |tracks| ==> tracks[k] == rest[k - 1];
    forall k | 0 <= k < |tracks| && Sized(tracks[k]) && (forall j :: 0 <= j < k ==> !Sized(tracks[j]))
      ensures size == Some((tracks[k].w16 / 0x1_0000, tracks[k].h16 / 0x1_0000))
    {
      assert forall j :: 0 <= j < k - 1 ==> rest[j] == tracks[j + 1];
      assert Sized(rest[k - 1]);
    }
    assert forall k :: 0 <= k < |rest| ==> rest[k] == tracks[k + 1];
  }

  lemma {:induction false} LastTimedWins(info: Info, movies: seq<MovieHeader>)
    ensures WithMovies(info, movies).size == info.size
    ensures info.duration.None? ==> LastTimed(movies, WithMovies(info, movies).duration)
    decreases |movies|
  {
    if movies != [] {
      var n := |movies| - 1;
      var front, last := movies[..n], movies[n];
      assert movies == front + [last];
      LastTimedWins(info, front);
      WithMoviesConcat(info, front, [last]);
      assert [last][1..] == [];
      var before := WithMovies(info, front);
      assert WithMovies(info, movies) == WithDuration(before, last.duration, last.timescale);
      if info.duration.None? { LastTimedNext(front, last, before.duration, WithMovies(info, movies).duration); }
    }
  }

  lemma LastTimedNext(front: seq<MovieHeader>, last: MovieHeader, before: Option<int>, duration: Option<int>)
    requires LastTimed(front, before)
    requires duration == if Timed(last) then Some(Millis(last.duration, last.timescale)) else before
    ensures LastTimed(front + [last], duration)
  {
    var all := front + [last];
    assert all[|front|] == last && forall k :: 0 <= k < |front| ==> all[k] == front[k];
  }

  /** So, whatever the file holds and however often: the size is that of the first track header in
      it whose sides are both at least one pixel, and none when no header is; the duration is that
      of the last movie header with a timescale, and none when no header has one. */
  lemma EveryFileReadsBack(boxes: seq<TopBox>)
    requires FileOk(boxes)
    ensures var out := ProbeOf(EncFile(boxes));
            && out.Probed?
            && FirstSized(FileTracks(boxes), out.info.size)
            && LastTimed(FileMovies(boxes), out.info.duration)
  {
    ProbeReadsBack(boxes);
    FileSaysHeaders(boxes, NOTHING);
    var timed := WithMovies(NOTHING, FileMovies(boxes));
    LastTimedWins(NOTHING, FileMovies(boxes));
    FirstSizedWins(timed, FileTracks(boxes));
  }

  lemma {:induction false} OthersSayNothing(others: seq<TopBox>, rest: seq<TopBox>)
    requires forall i :: 0 <= i < |others| ==> others[i].Other?
    ensures FileMovies(others + rest) == FileMovies(rest) && FileTracks(others + rest) == FileTracks(rest)
  {
    if others == [] {
      assert others + rest == rest;
    } else {
      assert (others + rest)[1..] == others[1..] + rest;
      OthersSayNothing(others[1..], rest);
    }
  }

  lemma OthersSay(others: seq<TopBox>)
    requires forall i :: 0 <= i < |others| ==> others[i].Other?
    ensures FileMovies(others) == [] && FileTracks(others) == []
  {
    OthersSayNothing(others, []);
    assert others + [] == others;
  }

  lemma {:induction false} NoMovieHeader(tracks: seq<MoovChild>)
    requires forall i :: 0 <= i < |tracks| ==> !tracks[i].Mvhd?
    ensures MoovMovies(tracks) == []
  {
    if tracks != [] { NoMovieHeader(tracks[1..]); }
  }

  lemma OneMovieOnly(before: seq<TopBox>, movie: TopBox, after: seq<TopBox>)
    requires movie.Movie?
    requires forall i :: 0 <= i < |before| ==> before[i].Other?
    requires forall i :: 0 <= i < |after| ==> after[i].Other?
    ensures FileMovies(before + [movie] + after) == MoovMovies(movie.children)
    ensures FileTracks(before + [movie] + after) == MoovTracks(movie.children)
  {
    assert before + [movie] + after == before + ([movie] + after);
    OthersSayNothing(before, [movie] + after);
    assert ([movie] + after)[1..] == after;
    OthersSay(after);
  }

  lemma OneMovieHeader(children: seq<MoovChild>, h: MovieHeader, tracks: seq<MoovChild>)
    requires children == [Mvhd(h)] + tracks && forall i :: 0 <= i < |tracks| ==> !tracks[i].Mvhd?
    ensures MoovMovies(children) == [h] && MoovTracks(children) == MoovTracks(tracks)
  {
    assert children[1..] == tracks;
    NoMovieHeader(tracks);
  }

  /** The usual file -- one movie box, one movie header first in it -- in the numbers that were
      written: the duration of that header, and the size of the first track header that has one. */
  lemma OneMovieReadsBack(before: seq<TopBox>, movie: TopBox, after: seq<TopBox>, h: MovieHeader,
                          tracks: seq<MoovChild>)
    requires FileOk(before + [movie] + after) && movie.Movie? && movie.children == [Mvhd(h)] + tracks
    requires forall i :: 0 <= i < |before| ==> before[i].Other?
    requires forall i :: 0 <= i < |after| ==> after[i].Other?
    requires forall i :: 0 <= i < |tracks| ==> !tracks[i].Mvhd?
    ensures var out := ProbeOf(EncFile(before + [movie] + after));
            && out.Probed?
            && out.info.duration == (if h.timescale > 0 then Some(Millis(h.duration, h.timescale)) else None)
            && FirstSized(MoovTracks(tracks), out.info.size)
  {
    EveryFileReadsBack(before + [movie] + after);
    OneMovieOnly(before, movie, after);
    OneMovieHeader(movie.children, h, tracks);
    assert [h][0] == h;
  }
}
