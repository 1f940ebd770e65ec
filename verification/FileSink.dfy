/** The rolling-file sink: buffered writes and rotation by size and by UTC time bucket, with
    I/O that succeeds, no other process rotating the file, and fresh archive names. */
module FileSink {
  import opened Bytes
  import opened Calendar

  const BUFFER: nat := 0x1_0000
  const THRESHOLD: nat := 0xC000
  const CHECK_EVERY: nat := 1024

  datatype Line = Line(bytes: seq<byte>, ts: int)

  datatype Config = Config(enabled: bool, bySize: bool, byTime: bool, maxSize: nat, unit: Unit, fsyncEntry: bool)

  /** A rotated file: its content, the lines written to it, and why it was rotated. */
  datatype Archive = Archive(content: seq<byte>, lines: seq<Line>, forSize: bool)

  function Join(lines: seq<Line>): seq<byte> {
    if lines == [] then [] else Join(lines[..|lines| - 1]) + lines[|lines| - 1].bytes
  }

  lemma JoinAppend(lines: seq<Line>, l: Line)
    ensures Join(lines + [l]) == Join(lines) + l.bytes
  {
    assert (lines + [l])[..|lines|] == lines;
  }

  lemma {:induction false} JoinConcat(a: seq<Line>, b: seq<Line>)
    ensures Join(a + b) == Join(a) + Join(b)
  {
    if b == [] {
      assert a + b == a;
    } else {
      var b', l := b[..|b| - 1], b[|b| - 1];
      JoinConcat(a, b');
      assert a + b == (a + b') + [l];
      JoinAppend(a + b', l);
    }
  }

  function AllLines(archives: seq<Archive>): seq<Line> {
    if archives == [] then [] else AllLines(archives[..|archives| - 1]) + archives[|archives| - 1].lines
  }

  lemma AllLinesAppend(archives: seq<Archive>, a: Archive)
    ensures AllLines(archives + [a]) == AllLines(archives) + a.lines
  {
    assert (archives + [a])[..|archives|] == archives;
  }

  // ---------------------------------------------------------------- what a file satisfies

  /** Whole lines, behind what the file held when the sink opened it. */
  predicate Whole(content: seq<byte>, before: seq<byte>, lines: seq<Line>) { content == before + Join(lines) }

  /** Without its last line the file was below the limit. */
  predicate Bounded(maxSize: nat, size: nat, lines: seq<Line>) {
    lines != [] ==> size < maxSize + |lines[|lines| - 1].bytes|
  }

  ghost predicate OneBucket(unit: Unit, lines: seq<Line>) {
    forall i, j | 0 <= i < |lines| && 0 <= j < |lines| ::
      NextBoundary(lines[i].ts, unit) == NextBoundary(lines[j].ts, unit)
  }

  predicate SizeLimited(c: Config) { c.enabled && c.bySize && c.maxSize > 0 }

  predicate TimeLimited(c: Config) { c.enabled && c.byTime }

  ghost predicate ArchiveOk(c: Config, a: Archive, before: seq<byte>, ordered: bool) {
    && Whole(a.content, before, a.lines)
    && (SizeLimited(c) ==> Bounded(c.maxSize, |a.content|, a.lines))
    && (a.forSize ==> SizeLimited(c) && |a.content| >= c.maxSize)
    && (TimeLimited(c) && ordered ==> OneBucket(c.unit, a.lines))
  }

  /** The first file starts with what was there, later ones empty. */
  function Before(prior: seq<byte>, i: nat): seq<byte> { if i == 0 then prior else [] }

  ghost predicate ArchivesOk(c: Config, archives: seq<Archive>, prior: seq<byte>, ordered: bool) {
    forall i | 0 <= i < |archives| :: ArchiveOk(c, archives[i], Before(prior, i), ordered)
  }

  /** The lines of the current file lie between the instant it was started and the boundary. */
  ghost predicate Bucketed(c: Config, lines: seq<Line>, base: int, last: int, boundary: int) {
    && 0 <= base <= last && boundary == NextBoundary(base, c.unit)
    && forall i | 0 <= i < |lines| :: base <= lines[i].ts <= last && lines[i].ts < boundary
  }

  lemma SameBucket(base: int, t: int, unit: Unit)
    requires 0 <= base <= t < NextBoundary(base, unit)
    ensures NextBoundary(t, unit) == NextBoundary(base, unit)
  {
    hide NextBoundary, Starts;
    NextBoundaryIsLeast(base, unit);
    NextBoundaryIsLeast(t, unit);
    var a, b := NextBoundary(base, unit), NextBoundary(t, unit);
    assert a < b ==> !Starts(unit, a);
    assert b < a ==> !Starts(unit, b);
  }

  lemma BucketedIsOne(c: Config, lines: seq<Line>, base: int, last: int, boundary: int)
    requires Bucketed(c, lines, base, last, boundary)
    ensures OneBucket(c.unit, lines)
  {
    hide NextBoundary;
    forall i | 0 <= i < |lines| ensures NextBoundary(lines[i].ts, c.unit) == boundary {
      SameBucket(base, lines[i].ts, c.unit);
    }
  }

  /** What the file system holds (the active file, and the archives oldest first), the
      lines written to the active file and those in the buffer, all lines emitted, whether
      their timestamps never went back, where the current bucket started and the last
      timestamp; `start` is where the clock of the lines starts. */
  datatype History = History(active: seq<byte>, archives: seq<Archive>, written: seq<Line>, pending: seq<Line>,
                             emitted: seq<Line>, start: nat, ordered: bool, base: int, last: int)

  function LastTime(start: int, lines: seq<Line>): int { if lines == [] then start else lines[|lines| - 1].ts }

  /** No line is older than the one before it, and the first not older than `start`. */
  predicate InOrder(start: int, lines: seq<Line>) {
    forall i | 0 <= i < |lines| :: LastTime(start, lines[..i]) <= lines[i].ts
  }

  predicate ClockTold(h: History) { h.ordered == InOrder(h.start, h.emitted) && h.last == LastTime(h.start, h.emitted) }

  lemma ClockTicks(h: History, l: Line, h': History)
    requires ClockTold(h) && h'.start == h.start && h'.emitted == h.emitted + [l]
    requires h'.ordered == (h.ordered && l.ts >= h.last) && h'.last == l.ts
    ensures ClockTold(h')
  {
    hide LastTime;
    var n, all := |h.emitted|, h'.emitted;
    assert LastTime(h.start, all) == l.ts by { LastIs(h.start, h.emitted, l); }
    assert all[..n] == h.emitted && all[n] == l;
    forall i | 0 <= i < n ensures all[..i] == h.emitted[..i] && all[i] == h.emitted[i] {}
    if InOrder(h.start, all) {
      assert LastTime(h.start, all[..n]) <= all[n].ts;
      assert forall i | 0 <= i < n :: LastTime(h.start, all[..i]) <= all[i].ts;
    }
  }

  lemma LastIs(start: int, lines: seq<Line>, l: Line)
    ensures LastTime(start, lines + [l]) == l.ts
  {
  }

  /** `buf` is the pending bytes, `size` the size counter, `prior` what the file held first. */
  ghost predicate StateOk(c: Config, prior: seq<byte>, buf: seq<byte>, size: nat, boundary: int, h: History) {
    && size == |h.active| && buf == Join(h.pending)
    && Whole(h.active, Before(prior, |h.archives|), h.written)
    && h.emitted == AllLines(h.archives) + (h.written + h.pending)
    && ArchivesOk(c, h.archives, prior, h.ordered)
    && (SizeLimited(c) ==> Bounded(c.maxSize, size + |buf|, h.written + h.pending))
    && (TimeLimited(c) && h.ordered ==> boundary > 0 && Bucketed(c, h.written + h.pending, h.base, h.last, boundary))
  }

  lemma ArchiveJoins(c: Config, archives: seq<Archive>, a: Archive, prior: seq<byte>, ordered: bool,
                     base: int, last: int, boundary: int)
    requires ArchivesOk(c, archives, prior, ordered) && Whole(a.content, Before(prior, |archives|), a.lines)
    requires SizeLimited(c) ==> Bounded(c.maxSize, |a.content|, a.lines)
    requires a.forSize ==> SizeLimited(c) && |a.content| >= c.maxSize
    requires TimeLimited(c) && ordered ==> Bucketed(c, a.lines, base, last, boundary)
    ensures ArchivesOk(c, archives + [a], prior, ordered)
  {
    hide Whole, Bounded, Bucketed, OneBucket;
    if TimeLimited(c) && ordered { BucketedIsOne(c, a.lines, base, last, boundary); }
    forall i | 0 <= i < |archives| + 1 ensures ArchiveOk(c, (archives + [a])[i], Before(prior, i), ordered) {
      if i < |archives| { assert ArchiveOk(c, archives[i], Before(prior, i), ordered); }
    }
  }

  lemma Loosens(c: Config, archives: seq<Archive>, prior: seq<byte>, ordered: bool)
    requires ArchivesOk(c, archives, prior, ordered)
    ensures ArchivesOk(c, archives, prior, false)
  {
    hide Whole, Bounded, OneBucket;
    forall i | 0 <= i < |archives| ensures ArchiveOk(c, archives[i], Before(prior, i), false) {
      assert ArchiveOk(c, archives[i], Before(prior, i), ordered);
    }
  }

  lemma StartOk(c: Config, prior: seq<byte>, start: nat, boundary: int)
    requires boundary == if c.byTime then NextBoundary(start, c.unit) else 0
    ensures StateOk(c, prior, [], |prior|, boundary, History(prior, [], [], [], [], start, true, start, start))
  {
    hide NextBoundary, Starts;
    NextBoundaryIsLeast(start, c.unit);
  }

  function Flushed(h: History, buf: seq<byte>): History {
    h.(active := h.active + buf, written := h.written + h.pending, pending := [])
  }

  lemma FlushOk(c: Config, prior: seq<byte>, buf: seq<byte>, size: nat, boundary: int, h: History)
    requires StateOk(c, prior, buf, size, boundary, h)
    ensures StateOk(c, prior, [], size + |buf|, boundary, Flushed(h, buf))
  {
    hide Bounded, Bucketed, ArchivesOk, AllLines;
    JoinConcat(h.written, h.pending);
    assert h.written + h.pending + [] == h.written + h.pending;
  }

  function Rotated(c: Config, h: History, ts: int, forSize: bool): History {
    h.(active := [], written := [], archives := h.archives + [Archive(h.active, h.written, forSize)],
       base := if c.byTime && h.ordered then ts else h.base, last := if c.byTime && h.ordered then ts else h.last)
  }

  lemma RotateOk(c: Config, prior: seq<byte>, size: nat, boundary: int, h: History, ts: int, forSize: bool)
    requires StateOk(c, prior, [], size, boundary, h) && c.enabled && h.pending == []
    requires TimeLimited(c) && h.ordered ==> ts >= h.last
    requires forSize ==> SizeLimited(c) && size >= c.maxSize
    ensures var b := if c.byTime then NextBoundary(ts, c.unit) else boundary;
            StateOk(c, prior, [], 0, b, Rotated(c, h, ts, forSize))
            && (TimeLimited(c) && h.ordered ==> ts < b)
  {
    var a := Archive(h.active, h.written, forSize);
    assert h.written + h.pending == h.written;
    if TimeLimited(c) && h.ordered { NextBoundaryIsLeast(ts, c.unit); }
    hide NextBoundary, Starts, ArchivesOk, AllLines;
    ArchiveJoins(c, h.archives, a, prior, h.ordered, h.base, h.last, boundary);
    AllLinesAppend(h.archives, a);
  }

  /** The instant of a new line: later lines may only make `ordered` false. */
  lemma ClockOk(c: Config, prior: seq<byte>, buf: seq<byte>, size: nat, boundary: int, h: History, ts: int)
    requires StateOk(c, prior, buf, size, boundary, h)
    ensures StateOk(c, prior, buf, size, boundary, h.(ordered := h.ordered && ts >= h.last))
    ensures TimeLimited(c) && h.ordered ==> boundary > 0
  {
    Loosens(c, h.archives, prior, h.ordered);
    hide ArchivesOk, Bucketed, Bounded, AllLines;
  }

  lemma LineJoins(c: Config, h: History, l: Line, size: nat, boundary: int)
    requires SizeLimited(c) ==> size < c.maxSize
    requires TimeLimited(c) && h.ordered ==>
               h.last <= l.ts < boundary && Bucketed(c, h.written + h.pending, h.base, h.last, boundary)
    ensures h.written + h.pending + [l] == h.written + (h.pending + [l])
    ensures SizeLimited(c) ==> Bounded(c.maxSize, size + |l.bytes|, h.written + h.pending + [l])
    ensures TimeLimited(c) && h.ordered ==> Bucketed(c, h.written + h.pending + [l], h.base, l.ts, boundary)
  {
    hide NextBoundary;
  }

  function Buffered(h: History, l: Line): History {
    h.(pending := h.pending + [l], emitted := h.emitted + [l], last := l.ts)
  }

  function Direct(h: History, l: Line): History {
    h.(active := h.active + l.bytes, written := h.written + [l], emitted := h.emitted + [l], last := l.ts)
  }

  predicate MayCommit(c: Config, size: nat, boundary: int, h: History, ts: int) {
    (SizeLimited(c) ==> size < c.maxSize) && (TimeLimited(c) && h.ordered ==> h.last <= ts < boundary)
  }

  lemma BufferedOk(c: Config, prior: seq<byte>, buf: seq<byte>, size: nat, boundary: int, h: History, l: Line)
    requires StateOk(c, prior, buf, size, boundary, h) && MayCommit(c, size + |buf|, boundary, h, l.ts)
    ensures StateOk(c, prior, buf + l.bytes, size, boundary, Buffered(h, l))
  {
    hide Bounded, Bucketed, ArchivesOk, AllLines;
    LineJoins(c, h, l, size + |buf|, boundary);
    JoinAppend(h.pending, l);
    assert AllLines(h.archives) + (h.written + h.pending) + [l] == AllLines(h.archives) + (h.written + h.pending + [l]);
  }

  lemma DirectOk(c: Config, prior: seq<byte>, size: nat, boundary: int, h: History, l: Line)
    requires StateOk(c, prior, [], size, boundary, h) && MayCommit(c, size, boundary, h, l.ts) && h.pending == []
    ensures StateOk(c, prior, [], size + |l.bytes|, boundary, Direct(h, l))
  {
    hide Bounded, Bucketed, ArchivesOk, AllLines;
    LineJoins(c, h, l, size, boundary);
    JoinAppend(h.written, l);
    assert AllLines(h.archives) + (h.written + h.pending) + [l] == AllLines(h.archives) + (h.written + h.pending + [l]);
    assert h.written + h.pending + [l] == (h.written + [l]) + h.pending;
  }

  /** How many bytes wait in the buffer after a line of `n` bytes joined the `was` there. A
      line that does not fit behind them flushes them first, one larger than the whole buffer
      goes to the file; from 48 KiB on everything is written, and after every line if the
      sink syncs each entry. */
  function LeftInBuffer(was: nat, n: nat, each: bool): nat {
    var now := if was + n > 0x1_0000 then n else was + n;
    if n > 0x1_0000 || now >= 0xC000 || each then 0 else now
  }

  class Sink {
    const cfg: Config
    const iobuf: array<byte>
    var iolen: nat
    var pendingLines: nat
    var fileSize: nat
    var boundary: int
    var linesSinceCheck: nat
    ghost const prior: seq<byte>
    ghost var h: History

    /** Between two lines. */
    ghost predicate Ready()
      reads this, iobuf
    {
      Valid() && ClockTold(h)
    }

    ghost predicate Valid()
      reads this, iobuf
    {
      iobuf.Length == BUFFER && iolen <= BUFFER && StateOk(cfg, prior, iobuf[..iolen], fileSize, boundary, h)
    }

    /** `start` is any instant of the bucket in which the sink starts. */
    constructor (cfg: Config, size: nat, now: nat, ghost prior: seq<byte>, ghost start: nat)
      requires size == |prior| && NextBoundary(start, cfg.unit) == NextBoundary(now, cfg.unit)
      ensures Ready() && fresh(iobuf) && this.prior == prior && this.cfg == cfg
      ensures h == History(prior, [], [], [], [], start, true, start, start)
    {
      this.cfg := cfg;
      this.prior := prior;
      iobuf := new byte[BUFFER];
      iolen, pendingLines, linesSinceCheck, fileSize := 0, 0, 0, size;
      boundary := if cfg.byTime then NextBoundary(now, cfg.unit) else 0;
      h := History(prior, [], [], [], [], start, true, start, start);
      new;
      StartOk(cfg, prior, start, boundary);
      assert iobuf[..0] == [];
    }

    /** file_flush_locked: the pending bytes go to the active file. */
    method Flush()
      requires Valid()
      modifies this`iolen, this`pendingLines, this`fileSize, this`h
      ensures Valid() && iolen == 0 && h == Flushed(old(h), old(iobuf[..iolen]))
      ensures fileSize == old(fileSize) + old(iolen)
    {
      hide StateOk;
      FlushOk(cfg, prior, iobuf[..iolen], fileSize, boundary, h);
      h := Flushed(h, iobuf[..iolen]);
      assert iobuf[..0] == [];
      if iolen == 0 {
        return;
      }
      fileSize := fileSize + iolen;
      iolen, pendingLines := 0, 0;
    }

    /** hpu_rotate_file: the active file gets a fresh archive name and an empty one starts. */
    method Rotate(ts: int, ghost forSize: bool)
      requires Valid() && cfg.enabled && iolen == 0 && h.pending == []
      requires TimeLimited(cfg) && h.ordered ==> ts >= h.last
      requires forSize ==> SizeLimited(cfg) && fileSize >= cfg.maxSize
      modifies this`fileSize, this`boundary, this`linesSinceCheck, this`h
      ensures Valid() && fileSize == 0 && h == Rotated(cfg, old(h), ts, forSize)
      ensures TimeLimited(cfg) && h.ordered ==> ts < boundary
    {
      hide StateOk, NextBoundary;
      assert iobuf[..0] == [];
      RotateOk(cfg, prior, fileSize, boundary, h, ts, forSize);
      h := Rotated(cfg, h, ts, forSize);
      fileSize := 0;
      if cfg.byTime {
        boundary := NextBoundary(ts, cfg.unit);
      }
      linesSinceCheck := 0;
    }

    /** The line goes to the buffer, or straight to the file when it is larger than that. */
    method Commit(line: seq<byte>, ghost ts: int)
      requires Valid() && MayCommit(cfg, fileSize + iolen, boundary, h, ts)
      modifies this`iolen, this`pendingLines, this`fileSize, this`h, iobuf
      ensures Valid() && iolen < THRESHOLD
      ensures h.emitted == old(h.emitted) + [Line(line, ts)] && h.archives == old(h.archives)
      ensures h.ordered == old(h.ordered) && h.start == old(h.start) && h.last == ts
      ensures h.active + iobuf[..iolen] == old(h.active + iobuf[..iolen]) + line
      ensures iolen == LeftInBuffer(old(iolen), |line|, cfg.fsyncEntry)
    {
      hide StateOk;
      ghost var l := Line(line, ts);
      if iolen + |line| > BUFFER {
        Flush();
      }
      if |line| > BUFFER {
        assert iobuf[..0] == [];
        DirectOk(cfg, prior, fileSize, boundary, h, l);
        h := Direct(h, l);
        fileSize := fileSize + |line|;
      } else {
        BufferedOk(cfg, prior, iobuf[..iolen], fileSize, boundary, h, l);
        SpliceUpto(iobuf[..], iolen, line);
        assert iobuf[..][..iolen] == iobuf[..iolen];
        CopyInto(iobuf, iolen, line);
        assert iobuf[..][..iolen + |line|] == iobuf[..iolen + |line|];
        h := Buffered(h, l);
        iolen := iolen + |line|;
        pendingLines := pendingLines + 1;
        if iolen >= THRESHOLD {
          Flush();
        } else if cfg.fsyncEntry {
          Flush();
        }
      }
    }

    /** file_emit_one_locked. */
    method Emit(line: seq<byte>, ts: int)
      requires Ready()
      modifies this`iolen, this`pendingLines, this`fileSize, this`boundary, this`linesSinceCheck, this`h, iobuf
      ensures Ready() && iolen < THRESHOLD && h.emitted == old(h.emitted) + [Line(line, ts)]
      ensures h.start == old(h.start)
      ensures iolen == LeftInBuffer(if h.archives == old(h.archives) then old(iolen) else 0, |line|, cfg.fsyncEntry)
      ensures h.active + iobuf[..iolen]
              == (if h.archives == old(h.archives) then old(h.active + iobuf[..iolen]) else []) + line
      ensures h.archives == old(h.archives) +
                if cfg.enabled && ((cfg.bySize && 0 < cfg.maxSize <= old(fileSize + iolen))
                                   || (cfg.byTime && 0 < old(boundary) <= ts))
                then [Archive(old(h.active) + old(iobuf[..iolen]), old(h.written + h.pending),
                              SizeLimited(cfg) && old(fileSize + iolen) >= cfg.maxSize)]
                else []
    {
      hide StateOk, ClockTold;
      ghost var before := h;
      ClockOk(cfg, prior, iobuf[..iolen], fileSize, boundary, h, ts);
      h := h.(ordered := h.ordered && ts >= h.last);
      if cfg.enabled {
        var needRotate := false;
        if cfg.bySize && cfg.maxSize > 0 && fileSize + iolen >= cfg.maxSize {
          needRotate := true;
        }
        if !needRotate && cfg.byTime && boundary > 0 && ts >= boundary {
          needRotate := true;
        }
        if needRotate {
          ghost var forSize := SizeLimited(cfg) && fileSize + iolen >= cfg.maxSize;
          Flush();
          Rotate(ts, forSize);
        }
      }
      linesSinceCheck := linesSinceCheck + 1;
      if linesSinceCheck >= CHECK_EVERY {
        // the path still refers to the file that is open
        linesSinceCheck := 0;
      }
      Commit(line, ts);
      ClockTicks(before, Line(line, ts), h);
    }
  }

  // ---------------------------------------------------------------- what a reader finds

  function Contents(archives: seq<Archive>): seq<byte> {
    if archives == [] then [] else Contents(archives[..|archives| - 1]) + archives[|archives| - 1].content
  }

  lemma ArchivesPrefix(c: Config, prior: seq<byte>, archives: seq<Archive>, ordered: bool)
    requires ArchivesOk(c, archives, prior, ordered) && archives != []
    ensures var n := |archives| - 1;
            ArchivesOk(c, archives[..n], prior, ordered)
            && Whole(archives[n].content, Before(prior, n), archives[n].lines)
  {
    hide Bounded, OneBucket;
    var n := |archives| - 1;
    assert ArchiveOk(c, archives[n], Before(prior, n), ordered);
    forall i | 0 <= i < n ensures ArchiveOk(c, archives[..n][i], Before(prior, i), ordered) {
      assert ArchiveOk(c, archives[i], Before(prior, i), ordered);
    }
  }

  lemma LastArchive(archives: seq<Archive>)
    requires archives != []
    ensures var n := |archives| - 1;
            Contents(archives) == Contents(archives[..n]) + archives[n].content
            && AllLines(archives) == AllLines(archives[..n]) + archives[n].lines
  {
  }

  lemma {:induction false} ContentsJoin(c: Config, prior: seq<byte>, archives: seq<Archive>, ordered: bool)
    requires ArchivesOk(c, archives, prior, ordered) && archives != []
    ensures Contents(archives) == prior + Join(AllLines(archives))
  {
    hide ArchivesOk, Join, Contents, AllLines;
    var n := |archives| - 1;
    var rest, a := archives[..n], archives[n];
    ArchivesPrefix(c, prior, archives, ordered);
    LastArchive(archives);
    JoinConcat(AllLines(rest), a.lines);
    Assoc(prior, Join(AllLines(rest)), Join(a.lines));
    if n > 0 {
      ContentsJoin(c, prior, rest, ordered);
      Assoc(Join(a.lines), [], []);
    } else {
      Empty();
      assert rest == [];
      assert prior + [] == prior && [] + a.content == a.content;
    }
  }

  lemma Empty()
    ensures Join([]) == [] && AllLines([]) == [] && Contents([]) == []
  {
  }

  lemma Assoc(a: seq<byte>, b: seq<byte>, c: seq<byte>)
    ensures (a + b) + c == a + (b + c) && [] + a == a
  {
  }

  /** Archives, active file and pending buffer together hold every emitted line, in order
      and whole, behind what the file held first. */
  lemma NothingLostNothingSplit(c: Config, prior: seq<byte>, buf: seq<byte>, size: nat, boundary: int, h: History)
    requires StateOk(c, prior, buf, size, boundary, h)
    ensures Contents(h.archives) + h.active + buf == prior + Join(h.emitted)
  {
    hide ArchivesOk, Bounded, Bucketed, Join, AllLines, Contents;
    JoinConcat(AllLines(h.archives), h.written + h.pending);
    JoinConcat(h.written, h.pending);
    var w, p := Join(h.written), Join(h.pending);
    Empty();
    if h.archives == [] {
      Assoc(prior, w, p);
      assert [] + h.active == h.active && [] + (w + p) == w + p;
    } else {
      ContentsJoin(c, prior, h.archives, h.ordered);
      Assoc(Contents(h.archives), w, p);
      Assoc(prior, Join(AllLines(h.archives)), w + p);
      assert [] + w == w;
    }
  }

  /** A file rotated for its size holds at least the limit, and less than the limit plus its
      last line (or it was that large when the sink opened it). */
  lemma RotatedSizes(c: Config, prior: seq<byte>, buf: seq<byte>, size: nat, boundary: int, h: History, i: nat)
    requires StateOk(c, prior, buf, size, boundary, h) && i < |h.archives| && h.archives[i].forSize
    ensures var a := h.archives[i];
            c.maxSize <= |a.content|
            && if a.lines == [] then i == 0 && a.content == prior
               else |a.content| < c.maxSize + |a.lines[|a.lines| - 1].bytes|
  {
    assert ArchiveOk(c, h.archives[i], Before(prior, i), h.ordered);
  }

  /** Under UTC time rotation no file mixes buckets, as long as timestamps never go back and
      the first line is not older than some instant of the bucket in which the sink started. */
  lemma FilesStayInOneBucket(c: Config, prior: seq<byte>, buf: seq<byte>, size: nat, boundary: int, h: History)
    requires StateOk(c, prior, buf, size, boundary, h) && ClockTold(h)
    requires TimeLimited(c) && InOrder(h.start, h.emitted)
    ensures forall a | a in h.archives :: OneBucket(c.unit, a.lines)
    ensures OneBucket(c.unit, h.written + h.pending)
  {
    hide NextBoundary;
    BucketedIsOne(c, h.written + h.pending, h.base, h.last, boundary);
    forall i | 0 <= i < |h.archives| ensures OneBucket(c.unit, h.archives[i].lines) {
      assert ArchiveOk(c, h.archives[i], Before(prior, i), h.ordered);
    }
  }
}
