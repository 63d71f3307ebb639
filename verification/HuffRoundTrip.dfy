/** Whole Huffman-coded sequential scans, restart intervals included, from tables and coefficients to bytes and back. */
module HuffRoundTrip {
  import opened Words
  import opened BitStrings
  import opened ByteStuffing
  import opened Coefficients
  import opened HuffTables
  import opened HuffDerived
  import opened HuffBitWriter
  import opened HuffBitReader
  import opened HuffDecode
  import opened HuffTokens
  import opened HuffBlocks
  import opened HuffReader
  import opened HuffBlockEncoder
  import opened HuffBlockDecoder
  import opened Restarts

  predicate AreTables(books: Books) {
    && (forall i :: 0 <= i < |books.dc| ==> IsTable(books.dc[i]))
    && (forall i :: 0 <= i < |books.ac| ==> IsTable(books.ac[i]))
  }

  method MakeEncoders(tables: seq<Table>, isDC: bool) returns (ok: bool, derived: seq<EncodeTable>)
    requires forall i :: 0 <= i < |tables| ==> IsTable(tables[i])
    ensures ok <==> forall i :: 0 <= i < |tables| ==> ProperTable(tables[i], isDC)
    ensures ok ==> |derived| == |tables|
                   && forall i :: 0 <= i < |tables| ==> Encodes(derived[i], tables[i], Symbols(tables[i]))
  {
    hide CountTo, Spare, Encodes, ProperSymbols;
    derived := [];
    for i := 0 to |tables|
      invariant |derived| == i
      invariant forall k :: 0 <= k < i ==>
                              ProperTable(tables[k], isDC) && Encodes(derived[k], tables[k], Symbols(tables[k]))
    {
      var e;
      ok, e := MakeEncodeTable(tables[i], isDC);
      if !ok {
        assert !ProperTable(tables[i], isDC);
        return;
      }
      derived := derived + [e];
    }
    ok := true;
  }

  /** Tables the encoder accepts are accepted by the decoder as well. */
  method MakeDecoders(tables: seq<Table>, isDC: bool) returns (derived: seq<DecodeTable>)
    requires forall i :: 0 <= i < |tables| ==> ProperTable(tables[i], isDC)
    ensures |derived| == |tables| && forall i :: 0 <= i < |tables| ==> Usable(derived[i], tables[i])
  {
    hide CountTo, Spare, Decodes;
    derived := [];
    for i := 0 to |tables|
      invariant |derived| == i && forall k :: 0 <= k < i ==> Usable(derived[k], tables[k])
    {
      assert ProperTable(tables[i], isDC);
      var ok, d := MakeDecodeTable(tables[i], isDC);
      derived := derived + [d];
    }
  }

  predicate AreMcus(scan: Scan, mcus: seq<seq<Block>>) {
    forall i :: 0 <= i < |mcus| ==> |mcus[i]| == |scan.membership|
  }

  function StartDc(scan: Scan): (last: seq<Coef>)
    ensures |last| == |scan.components| && forall ci :: 0 <= ci < |last| ==> last[ci] == 0
  {
    seq(|scan.components|, _ => 0)
  }

  lemma ScanUnroll(scan: Scan, books: Books, last: seq<Coef>, mcus: seq<seq<Block>>, i: nat)
    requires ValidScan(scan, books) && |last| == |scan.components| && AreMcus(scan, mcus) && i <= |mcus|
    ensures AreMcus(scan, mcus[i..])
    ensures i == |mcus| ==> ScanTokens(scan, books, last, mcus[i..]) == []
    ensures i < |mcus| ==>
              && AreMcus(scan, mcus[i + 1..])
              && ScanTokens(scan, books, last, mcus[i..])
                 == McuTokens(scan, books, last, mcus[i], 0)
                    + ScanTokens(scan, books, McuLast(scan, books, last, mcus[i], 0), mcus[i + 1..])
  {
    hide McuTokens, McuLast, IsOrder;
    if i < |mcus| {
      assert mcus[i..][1..] == mcus[i + 1..];
    }
  }

  /** Emits a whole scan; what is pending at the end is padded with ones. */
  method EncodeScan(scan: Scan, books: Books, dcTbls: seq<EncodeTable>, acTbls: seq<EncodeTable>, mcus: seq<seq<Block>>)
    returns (ok: bool, out: seq<byte>, ghost data: seq<byte>)
    requires Proper(books) && ValidScan(scan, books) && EncodersFor(dcTbls, acTbls, books) && AreMcus(scan, mcus)
    ensures ok <==> AllCoded(books, ScanTokens(scan, books, StartDc(scan), mcus))
    ensures ok ==> out == Stuff(data) && Spell(books, ScanTokens(scan, books, StartDc(scan), mcus)) <= Unpacked(data)
  {
    hide Proper, ProperTable, IsOrder, EncodersFor, BitWriter.Holds, AllCoded, Spell, McuTokens, McuLast, ScanTokens,
      Unpacked, Stuff;
    var bw := new BitWriter([]);
    var enc := new HuffEncoder(bw, scan, dcTbls, acTbls, books);
    ghost var toks := ScanTokens(scan, books, StartDc(scan), mcus);
    assert mcus[0..] == mcus;
    assert [] + Spell(books, toks) == Spell(books, toks);
    out, data := [], [];
    for i := 0 to |mcus|
      invariant fresh(enc) && fresh(bw) && enc.bw == bw && enc.scan == scan && enc.books == books && enc.Valid()
      invariant AllCoded(books, toks) <==> AllCoded(books, ScanTokens(scan, books, enc.lastDcVal, mcus[i..]))
      invariant bw.sent + Spell(books, ScanTokens(scan, books, enc.lastDcVal, mcus[i..])) == Spell(books, toks)
    {
      ghost var last, sent := enc.lastDcVal, bw.sent;
      ScanUnroll(scan, books, last, mcus, i);
      ghost var now := McuTokens(scan, books, last, mcus[i], 0);
      ghost var later := ScanTokens(scan, books, McuLast(scan, books, last, mcus[i], 0), mcus[i + 1..]);
      SpellConcat(books, now, later);
      ok := enc.EncodeMcu(mcus[i]);
      if !ok {
        return;
      }
      assert sent + (Spell(books, now) + Spell(books, later)) == bw.sent + Spell(books, later);
    }
    ScanUnroll(scan, books, enc.lastDcVal, mcus, |mcus|);
    NothingSpelled(books);
    assert bw.sent + [] == bw.sent;
    bw.Flush();
    assert bw.base + Stuff(bw.data) == Stuff(bw.data);
    ok, out, data := true, bw.out, bw.data;
  }

  /** The coefficients of want below limit are there; any others are right or zero, and zero past the last coded one. */
  predicate Reproduces(scan: Scan, b: seq<Coef>, want: Block, limit: nat)
    requires IsOrder(scan.order) && scan.limSe < DCTSIZE2
  {
    && |b| == DCTSIZE2
    && (forall k :: 0 <= k <= scan.limSe && k < limit ==> b[scan.order[k]] == want[scan.order[k]])
    && (forall k :: 0 <= k < DCTSIZE2 ==>
       b[scan.order[k]] == 0 || (k <= scan.limSe && b[scan.order[k]] == want[scan.order[k]]))
  }

  predicate McuReproduces(scan: Scan, out: seq<seq<Coef>>, want: seq<Block>, coefLimit: seq<nat>)
    requires IsOrder(scan.order) && scan.limSe < DCTSIZE2
  {
    |out| == |want| == |coefLimit| && forall n :: 0 <= n < |want| ==> Reproduces(scan, out[n], want[n], coefLimit[n])
  }

  lemma HoldsReproduces(dec: HuffDecoder, blk: array<Coef>, want: Block, limit: nat)
    requires IsOrder(dec.scan.order) && dec.scan.limSe < DCTSIZE2 && blk.Length == DCTSIZE2
      && dec.Holds(blk, want, limit)
    requires limit <= dec.scan.limSe + 1
    ensures Reproduces(dec.scan, blk[..], want, limit)
  {
  }

  /** Decodes one MCU of a scan into fresh blocks. */
  method DecodeNextMcu(dec: HuffDecoder, ghost last: seq<Coef>, ghost mcus: seq<seq<Block>>, ghost i: nat,
      ghost end: nat)
    returns (blocks: seq<seq<Coef>>, ghost next: seq<Coef>)
    requires dec.Valid() && |last| == |dec.scan.components| && AreMcus(dec.scan, mcus) && i < |mcus|
    modifies dec, dec.rd, dec.rd.br
    ensures dec.Valid() && dec.rd.Moved(old(dec.rd.br.insufficientData), old(dec.rd.br.at)) && |next| == |last|
    ensures old(!dec.rd.br.insufficientData && dec.At(last)
      && dec.rd.Expects(ScanTokens(dec.scan, dec.rd.books, last, mcus[i..]), end)) ==>
              && dec.At(next) && dec.rd.Expects(ScanTokens(dec.scan, dec.rd.books, next, mcus[i + 1..]), end)
              && dec.rd.badCodes == old(dec.rd.badCodes) && McuReproduces(dec.scan, blocks, mcus[i], dec.coefLimit)
  {
    hide SymbolReader.Expects, HuffDecoder.At, SymbolReader.Moved, HuffDecoder.Holds, Proper, DecodersFor,
      BitReader.Valid;
    hide McuTokens, McuLast, ScanTokens, Reproduces;
    var scan := dec.scan;
    ghost var books := dec.rd.books;
    ghost var synced := !dec.rd.br.insufficientData && dec.At(last)
      && dec.rd.Expects(ScanTokens(scan, books, last, mcus[i..]), end);
    ScanUnroll(scan, books, last, mcus, i);
    next := McuLast(scan, books, last, mcus[i], 0);
    var mcu := NewBlocks(|scan.membership|);
    dec.DecodeMcu(mcu, last, mcus[i], ScanTokens(scan, books, next, mcus[i + 1..]), end);
    blocks := Contents(mcu);
    if synced {
      forall n | 0 <= n < |mcu|
        ensures Reproduces(scan, blocks[n], mcus[i][n], dec.coefLimit[n])
      {
        HoldsReproduces(dec, mcu[n], mcus[i][n], dec.coefLimit[n]);
      }
    }
  }

  /** Decodes count MCUs from a position of the source on; mcus is what the segment there may be coding. */
  method DecodeInterval(scan: Scan, books: Books, dcTbls: seq<DecodeTable>, acTbls: seq<DecodeTable>, needed: seq<bool>,
                        coefLimit: seq<nat>, src: seq<byte>, pos: nat, count: nat, ghost mcus: seq<seq<Block>>)
    returns (blocks: seq<seq<seq<Coef>>>, insufficientData: bool, badCodes: nat, next: nat, unreadMarker: byte)
    requires Proper(books) && ValidScan(scan, books) && DecodersFor(dcTbls, acTbls, books) && pos <= |src|
    requires AreMcus(scan, mcus) && |mcus| == count && Limits(scan, books, needed, coefLimit)
    ensures |blocks| == count && OnCourse(src, pos, next, unreadMarker)
    ensures var toks := ScanTokens(scan, books, StartDc(scan), mcus);
            AllCoded(books, toks) && Spell(books, toks) <= Unpacked(Segment(src, pos)) ==>
              && !insufficientData && badCodes == 0
              && forall i :: 0 <= i < count ==> McuReproduces(scan, blocks[i], mcus[i], coefLimit)
  {
    hide SymbolReader.Expects, HuffDecoder.At, Proper, DecodersFor, BitReader.Valid, OnCourse;
    hide McuTokens, McuLast, ScanTokens, McuReproduces, Spell, AllCoded, Unpacked, Segment, IsOrder;
    var br := new BitReader(src, pos);
    var rd := new SymbolReader(br, dcTbls, acTbls, books);
    var dec := new HuffDecoder(rd, scan, needed, coefLimit);
    ghost var last, end := StartDc(scan), |Spell(books, ScanTokens(scan, books, StartDc(scan), mcus))|;
    ghost var toks := ScanTokens(scan, books, StartDc(scan), mcus);
    ghost var synced := AllCoded(books, toks) && Spell(books, toks) <= Unpacked(Segment(src, pos));
    assert mcus[0..] == mcus;
    StartExpects(dec, toks);
    rd.StandsStill();
    blocks := [];
    for i := 0 to count
      invariant fresh(dec) && fresh(rd) && fresh(br) && dec.rd == rd && rd.br == br
      invariant dec.scan == scan && dec.rd.books == books && dec.coefLimit == coefLimit
      invariant dec.Valid() && dec.rd.Moved(false, 0) && |last| == |scan.components| && |blocks| == i
      invariant synced ==> dec.At(last) && dec.rd.Expects(ScanTokens(scan, books, last, mcus[i..]), end)
      invariant synced ==> dec.rd.badCodes == 0 && !br.insufficientData
      invariant synced ==> forall k :: 0 <= k < i ==> McuReproduces(scan, blocks[k], mcus[k], coefLimit)
    {
      var mcu;
      mcu, last := DecodeNextMcu(dec, last, mcus, i, end);
      blocks := blocks + [mcu];
      if synced {
        EndAhead(dec, ScanTokens(scan, books, last, mcus[i + 1..]), end);
      }
    }
    StaysOnCourse(dec);
    insufficientData, badCodes, next, unreadMarker := br.insufficientData, dec.rd.badCodes, br.next, br.unreadMarker;
  }

  lemma StaysOnCourse(dec: HuffDecoder)
    requires dec.Valid()
    ensures OnCourse(dec.rd.br.src, dec.rd.br.first, dec.rd.br.next, dec.rd.br.unreadMarker)
  {
    hide DecodersFor, Proper, IsOrder, BitReader.Buffered, OnCourse;
  }

  predicate Limits(scan: Scan, books: Books, needed: seq<bool>, coefLimit: seq<nat>)
    requires ValidScan(scan, books)
  {
    && |needed| == |scan.components| && |coefLimit| == |scan.membership|
    && forall n :: 0 <= n < |coefLimit| ==>
         coefLimit[n] <= scan.limSe + 1 && (coefLimit[n] > 0 <==> needed[scan.membership[n]])
  }

  /** A decoder at the start of a segment that begins with the spelling of toks. */
  lemma StartExpects(dec: HuffDecoder, toks: seq<Token>)
    requires dec.Valid() && dec.rd.br.at == 0 && dec.lastDcVal == seq(|dec.scan.components|, _ => 0)
    ensures dec.At(StartDc(dec.scan))
    ensures AllCoded(dec.rd.books, toks) && Spell(dec.rd.books, toks) <= Unpacked(dec.rd.br.data) ==>
              dec.rd.Expects(toks, |Spell(dec.rd.books, toks)|) && |Spell(dec.rd.books, toks)| <= 8 * |dec.rd.br.data|
  {
    hide AllCoded, Spell, BitAt, DecodersFor, Proper, IsOrder;
    var s, u := Spell(dec.rd.books, toks), Unpacked(dec.rd.br.data);
    if s <= u {
      assert BitsAt(dec.rd.br.data, 0, |s|) == u[..|s|] == s;
    }
  }

  lemma EndAhead(dec: HuffDecoder, toks: seq<Token>, end: nat)
    requires dec.rd.Expects(toks, end)
    ensures dec.rd.br.at <= end
  {
    hide AllCoded, Spell, DecodersFor, IsOrder;
  }

  predicate AreParts(scan: Scan, parts: seq<seq<seq<Block>>>) {
    forall i :: 0 <= i < |parts| ==> AreMcus(scan, parts[i])
  }

  lemma {:induction false} IntervalsAreParts(scan: Scan, mcus: seq<seq<Block>>, interval: nat)
    requires AreMcus(scan, mcus)
    ensures AreParts(scan, Intervals(mcus, interval))
    decreases |mcus|
  {
    if interval > 0 && |mcus| > interval {
      IntervalsAreParts(scan, mcus[interval..], interval);
    }
  }

  /** Everything in the interval has a code, and no coefficient of it is too large. */
  ghost predicate PartCoded(scan: Scan, books: Books, part: seq<seq<Block>>)
    requires Proper(books) && ValidScan(scan, books) && AreMcus(scan, part)
  {
    AllCoded(books, ScanTokens(scan, books, StartDc(scan), part))
  }

  ghost predicate AllPartsCoded(scan: Scan, books: Books, parts: seq<seq<seq<Block>>>)
    requires Proper(books) && ValidScan(scan, books) && AreParts(scan, parts)
  {
    forall i :: 0 <= i < |parts| ==> PartCoded(scan, books, parts[i])
  }

  /** The data of each interval spells its symbols. */
  ghost predicate PartsSpelled(scan: Scan, books: Books, parts: seq<seq<seq<Block>>>, datas: seq<seq<byte>>)
    requires Proper(books) && ValidScan(scan, books) && AreParts(scan, parts)
  {
    |datas| <= |parts| && forall i :: 0 <= i < |datas| ==>
                            PartCoded(scan, books, parts[i])
                            && Spell(books, ScanTokens(scan, books, StartDc(scan), parts[i])) <= Unpacked(datas[i])
  }

  /** Emits the intervals of a scan with restart markers between them; DC prediction starts again behind each. */
  method EncodeParts(scan: Scan, books: Books, dcTbls: seq<EncodeTable>, acTbls: seq<EncodeTable>,
      parts: seq<seq<seq<Block>>>)
    returns (ok: bool, out: seq<byte>, ghost datas: seq<seq<byte>>)
    requires Proper(books) && ValidScan(scan, books) && EncodersFor(dcTbls, acTbls, books) && AreParts(scan, parts)
    ensures ok <==> AllPartsCoded(scan, books, parts)
    ensures ok ==> out == Restarted(datas, 0) && |datas| == |parts| && PartsSpelled(scan, books, parts, datas)
  {
    hide Proper, EncodersFor, IsOrder, AllCoded, Spell, ScanTokens, Unpacked, Stuff, Restart;
    out, datas := [], [];
    var nextRestartNum: nat := 0;
    for i := 0 to |parts|
      invariant |datas| == i && out == Restarted(datas, 0) && PartsSpelled(scan, books, parts, datas)
      invariant nextRestartNum == if i > 0 then i - 1 else 0
    {
      if i > 0 {
        out := out + [0xFF, Restart(nextRestartNum)];
        nextRestartNum := nextRestartNum + 1;
      }
      var segment;
      ghost var data;
      ok, segment, data := EncodeScan(scan, books, dcTbls, acTbls, parts[i]);
      if !ok {
        return;
      }
      OneMoreInterval(datas, data, out, segment);
      out := out + segment;
      datas := datas + [data];
    }
    ok := true;
  }

  datatype Outcome =
    | BadTable
    | CannotEncode
    | Decoded(blocks: seq<seq<seq<Coef>>>, insufficientData: bool, badCodes: nat, lostRestarts: nat)

  /** All MCUs come back. */
  predicate AllReproduced(scan: Scan, out: seq<seq<seq<Coef>>>, mcus: seq<seq<Block>>, coefLimit: seq<nat>)
    requires IsOrder(scan.order) && scan.limSe < DCTSIZE2
  {
    |out| == |mcus| && forall i :: 0 <= i < |mcus| ==> McuReproduces(scan, out[i], mcus[i], coefLimit)
  }

  /** Decodes the intervals of a scan, given how many MCUs each has; parts is what they code. */
  method DecodeParts(scan: Scan, books: Books, dcTbls: seq<DecodeTable>, acTbls: seq<DecodeTable>, needed: seq<bool>,
                     coefLimit: seq<nat>, src: seq<byte>, counts: seq<nat>, ghost parts: seq<seq<seq<Block>>>,
                     ghost datas: seq<seq<byte>>, ghost last: byte, ghost rest: seq<byte>)
    returns (r: Outcome)
    requires Proper(books) && ValidScan(scan, books) && DecodersFor(dcTbls, acTbls, books) && AreParts(scan, parts)
    requires Limits(scan, books, needed, coefLimit) && |datas| == |parts| == |counts| > 0
    requires forall i :: 0 <= i < |parts| ==> |parts[i]| == counts[i]
    requires PartsSpelled(scan, books, parts, datas) && last != 0 && last != 0xFF
    requires src == Restarted(datas, 0) + [0xFF, last] + rest
    ensures r.Decoded? && !r.insufficientData && r.badCodes == 0 && r.lostRestarts == 0
    ensures AllReproduced(scan, r.blocks, Whole(parts), coefLimit)
  {
    hide Proper, DecodersFor, IsOrder, AllCoded, Spell, ScanTokens, Unpacked, Segment, Landing, OnCourse, Restarted,
      Restart, McuReproduces;
    var blocks: seq<seq<seq<Coef>>>, insufficientData, badCodes := [], false, 0;
    var pos: nat, nextRestartNum: nat, lostRestarts: nat := 0, 0, 0;
    assert datas[0..] == datas && src[0..] == src && parts[..0] == [];
    for i := 0 to |counts|
      invariant pos <= |src| && nextRestartNum == i
      invariant i < |datas| ==> src[pos..] == Restarted(datas[i..], i) + [0xFF, last] + rest
      invariant !insufficientData && badCodes == 0 && lostRestarts == 0
      invariant AllReproduced(scan, blocks, Whole(parts[..i]), coefLimit)
    {
      IntervalAhead(src, pos, datas, i, last, rest);
      WholeNext(parts, i);
      var some, insufficient, bad, next, unreadMarker;
      some, insufficient, bad, next, unreadMarker :=
        DecodeInterval(scan, books, dcTbls, acTbls, needed, coefLimit, src, pos, counts[i], parts[i]);
      blocks := blocks + some;
      insufficientData, badCodes := insufficientData || insufficient, badCodes + bad;
      if i + 1 < |counts| {
        var ok;
        ok, pos := ReadRestartMarker(src, pos, next, unreadMarker, nextRestartNum);
        lostRestarts := lostRestarts + if ok then 0 else 1;
      }
      nextRestartNum := nextRestartNum + 1;
    }
    assert parts[..|parts|] == parts;
    r := Decoded(blocks, insufficientData, badCodes, lostRestarts);
  }

  /**
   * For every scan, every restart interval and every choice of tables: the tables are rejected exactly if one is not
   * proper, encoding fails exactly if a coefficient is too large or a symbol has no code, and otherwise all the
   * coefficients that are wanted come back unchanged and the decoder reports neither missing data nor a bad code nor a
   * lost restart marker.
   */
  method RoundTripScan(scan: Scan, books: Books, needed: seq<bool>, coefLimit: seq<nat>, interval: nat,
      mcus: seq<seq<Block>>, marker: byte, rest: seq<byte>)
    returns (r: Outcome)
    requires AreTables(books) && ValidScan(scan, books) && AreMcus(scan, mcus) && Limits(scan, books, needed, coefLimit)
    requires marker != 0 && marker != 0xFF
    ensures AreParts(scan, Intervals(mcus, interval))
    ensures r.BadTable? <==> !Proper(books)
    ensures r.CannotEncode? <==> Proper(books) && !AllPartsCoded(scan, books, Intervals(mcus, interval))
    ensures r.Decoded? ==>
              && !r.insufficientData && r.badCodes == 0 && r.lostRestarts == 0
              && AllReproduced(scan, r.blocks, mcus, coefLimit)
  {
    hide ProperTable, Encodes, Usable, AllReproduced, Restarted, AllPartsCoded, PartsSpelled, Intervals, IsOrder,
      CountTo;
    IntervalsAreParts(scan, mcus, interval);
    IntervalsKeep(mcus, interval);
    var dcOk, dcEnc := MakeEncoders(books.dc, true);
    var acOk, acEnc := MakeEncoders(books.ac, false);
    if !dcOk || !acOk {
      return BadTable;
    }
    var parts := Intervals(mcus, interval);
    var ok, out;
    ghost var datas;
    ok, out, datas := EncodeParts(scan, books, dcEnc, acEnc, parts);
    if !ok {
      return CannotEncode;
    }
    var dcDec := MakeDecoders(books.dc, true);
    var acDec := MakeDecoders(books.ac, false);
    var counts := seq(|parts|, i requires 0 <= i < |parts| => |parts[i]|);
    r := DecodeParts(scan, books, dcDec, acDec, needed, coefLimit, out + [0xFF, marker] + rest, counts, parts, datas,
      marker, rest);
  }
}
