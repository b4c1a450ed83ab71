/**
 What the ISO 2709 parser makes of any bytes, told on the bytes alone (app/importers/marc.py): where the chunks, the
 directory and the fields of a file are.
 */
module MarcMeaning {
  import opened Wrappers
  import opened Text
  import opened Decimal
  import opened Gathering
  import opened Marc

  // ---------------------------------------------------------------- the chunks of a file

  /** What lies between two record terminators is a chunk unless it is empty; the last part, unless it is padding. */
  function ChunkOfPart(parts: seq<string>, k: nat): seq<string>
    requires k < |parts|
  {
    if k < |parts| - 1 then (if parts[k] != "" then [parts[k]] else [])
    else if forall j :: 0 <= j < |parts[k]| ==> parts[k][j] in "\0\n\r " then []
    else [parts[k]]
  }

  ghost predicate ChunksOfParts(parts: seq<string>, chunks: seq<string>) {
    exists pieces: seq<seq<string>> :: PartPieces(parts, pieces) && Gathers(chunks, pieces)
  }

  predicate PartPieces(parts: seq<string>, pieces: seq<seq<string>>) {
    |pieces| == |parts| && forall k :: 0 <= k < |parts| ==> pieces[k] == ChunkOfPart(parts, k)
  }

  lemma PartsCons(head: string, parts: seq<string>, chunks: seq<string>)
    requires parts != [] && ChunksOfParts(parts, chunks)
    ensures ChunksOfParts([head] + parts, (if head != "" then [head] else []) + chunks)
  {
    var pieces: seq<seq<string>> :| PartPieces(parts, pieces) && Gathers(chunks, pieces);
    var first := if head != "" then [head] else [];
    GathersSingle(first);
    GathersJoin(first, chunks, [first], pieces);
    PiecesCons(head, parts, pieces);
  }

  lemma PiecesCons(head: string, parts: seq<string>, pieces: seq<seq<string>>)
    requires parts != [] && PartPieces(parts, pieces)
    ensures PartPieces([head] + parts, [if head != "" then [head] else []] + pieces)
  {
    var all, ps := [head] + parts, [if head != "" then [head] else []] + pieces;
    forall k | 0 <= k < |all| ensures ps[k] == ChunkOfPart(all, k) {
      if k > 0 {
        assert all[k] == parts[k - 1] && ps[k] == pieces[k - 1] && pieces[k - 1] == ChunkOfPart(parts, k - 1);
      }
    }
  }

  lemma LastPart(part: string)
    ensures ChunksOfParts([part], if IsPadding(part) then [] else [part])
  {
    var piece := if IsPadding(part) then [] else [part];
    GathersSingle(piece);
    assert ChunkOfPart([part], 0) == piece;
    assert PartPieces([part], [piece]);
  }

  /** The chunks of a file are its parts between terminators. */
  lemma {:induction false} ChunksMean(data: string)
    ensures ChunksOfParts(Split(data, '\U{1d}'), Chunks(data))
    decreases |data|
  {
    var k := Find(data, RECORD_TERMINATOR);
    if k == |data| {
      SplitPiece(data, "", RECORD_TERMINATOR);
      LastPart(data);
    } else {
      var rest := data[k + 1..];
      ChunksMean(rest);
      assert data == data[..k] + [RECORD_TERMINATOR] + rest;
      SplitPiece(data[..k], rest, RECORD_TERMINATOR);
      PartsCons(data[..k], Split(rest, RECORD_TERMINATOR), Chunks(rest));
    }
  }

  // ---------------------------------------------------------------- the frame of a record

  /** The leader names the base address, and the directory of whole entries ends at the first field terminator. */
  predicate IsFrame(bytes: string, base: nat, end: nat) {
    && |bytes| >= 24 && AllDigits(bytes[12..17]) && base == ValueOf(bytes[12..17])
    && 24 <= end < |bytes| && bytes[end] == '\U{1e}' && (forall j :: 24 <= j < end ==> bytes[j] != '\U{1e}')
    && end <= base && (end - 24) % 12 == 0
  }

  lemma FindFrom(bytes: string, c: char)
    requires |bytes| >= 24
    ensures var end := 24 + Find(bytes[24..], c);
      && 24 <= end <= |bytes| && (end < |bytes| ==> bytes[end] == c)
      && forall j :: 24 <= j < end ==> bytes[j] != c
  {
    var rest := bytes[24..];
    var k := Find(rest, c);
    assert k < |rest| ==> bytes[24 + k] == rest[k];
    forall j | 24 <= j < 24 + k ensures bytes[j] != c {
      assert bytes[j] == rest[j - 24];
    }
  }

  lemma FrameMeans(bytes: string)
    ensures match Frame(bytes)
      case Some((base, directory)) =>
        IsFrame(bytes, base, 24 + |directory|) && directory == bytes[24..24 + |directory|]
      case None => forall base, end :: !IsFrame(bytes, base, end)
  {
    if |bytes| >= 24 {
      FindFrom(bytes, FIELD_TERMINATOR);
      FrameFound(bytes, 24 + Find(bytes[24..], FIELD_TERMINATOR));
    }
  }

  lemma FrameFound(bytes: string, found: nat)
    requires |bytes| >= 24 && found == 24 + Find(bytes[24..], FIELD_TERMINATOR)
    requires 24 <= found <= |bytes| && (found < |bytes| ==> bytes[found] == '\U{1e}')
    requires forall j :: 24 <= j < found ==> bytes[j] != '\U{1e}'
    ensures match Frame(bytes)
      case Some((base, directory)) =>
        IsFrame(bytes, base, 24 + |directory|) && directory == bytes[24..24 + |directory|]
      case None => forall base, end :: !IsFrame(bytes, base, end)
  {
    forall base: nat, end: nat | IsFrame(bytes, base, end) ensures end == found {
      if end != found {
        assert false;
      }
    }
  }

  // ---------------------------------------------------------------- fields

  /** The bytes from `start`, so many of them, as far as there are any. */
  predicate IsCut(bytes: string, start: nat, length: nat, cut: string) {
    if start >= |bytes| then cut == ""
    else if start + length >= |bytes| then cut == bytes[start..]
    else cut == bytes[start..start + length]
  }

  /** A field's bytes without the terminator at their end. */
  predicate IsBody(raw: string, body: string) {
    if raw != "" && raw[|raw| - 1] == '\U{1e}' then body == raw[..|raw| - 1] else body == raw
  }

  /** Behind each delimiter stands a subfield: one character of code, and its value; nothing behind it is none. */
  ghost predicate AreSubfields(text: string, subfields: seq<Subfield>) {
    var parts := Split(text, '\U{1f}');
    exists pieces: seq<seq<Subfield>> :: SubfieldPieces(parts, pieces) && Gathers(subfields, pieces)
  }

  predicate SubfieldPieces(parts: seq<string>, pieces: seq<seq<Subfield>>)
    requires parts != []
  {
    && |pieces| == |parts| - 1
    && forall k :: 0 <= k < |pieces| ==>
         pieces[k] == if parts[k + 1] == "" then [] else [Subfield([parts[k + 1][0]], parts[k + 1][1..])]
  }

  /** A field whose tag starts with 00 is its text; any other is two indicators and subfields, if it is long enough. */
  ghost predicate IsFieldOf(f: Field, tag: string, body: string) {
    && f.tag == tag
    && (if "00" <= tag then f.value == body && f.subfields.None? && f.indicator1 == f.indicator2 == " "
        else
          && f.value == "" && f.subfields.Some?
          && (if |body| < 2 then f.indicator1 == f.indicator2 == " " && f.subfields.value == []
              else
                && f.indicator1 == [body[0]] && f.indicator2 == [body[1]]
                && AreSubfields(body[2..], f.subfields.value)))
  }

  /** A directory entry: three characters of tag, four digits of length, five of offset; others count for nothing. */
  ghost predicate EntryReads(bytes: string, base: nat, entry: string, fields: seq<Field>)
    requires |entry| == 12
  {
    if AllDigits(entry[3..7]) && AllDigits(entry[7..12])
    then exists raw, body ::
      && |fields| == 1 && IsCut(bytes, base + ValueOf(entry[7..12]), ValueOf(entry[3..7]), raw) && IsBody(raw, body)
      && IsFieldOf(fields[0], entry[..3], body)
    else fields == []
  }

  lemma {:induction false} SubfieldsMean(pieces: seq<string>) returns (made: seq<seq<Subfield>>)
    ensures |made| == |pieces| && Gathers(SubfieldsOf(pieces), made)
    ensures forall k :: 0 <= k < |pieces| ==>
      made[k] == if pieces[k] == "" then [] else [Subfield([pieces[k][0]], pieces[k][1..])]
  {
    if pieces == [] {
      GathersNone<Subfield>();
      made := [];
    } else {
      var n := |pieces| - 1;
      var last := if pieces[n] == "" then [] else [Subfield([pieces[n][0]], pieces[n][1..])];
      made := SubfieldsMean(pieces[..n]);
      GathersSnoc(SubfieldsOf(pieces[..n]), made, last);
      assert pieces[n] != "" ==> pieces[n][..1] == [pieces[n][0]];
      made := made + [last];
    }
  }

  lemma TextSubfields(text: string)
    ensures AreSubfields(text, SubfieldsOf(Split(text, SUBFIELD_DELIMITER)[1..]))
  {
    var parts := Split(text, SUBFIELD_DELIMITER);
    var made := SubfieldsMean(parts[1..]);
    assert SubfieldPieces(parts, made);
  }

  lemma FieldMeans(tag: string, raw: string)
    ensures IsBody(raw, WithoutTerminator(raw)) && IsFieldOf(FieldOf(tag, raw), tag, WithoutTerminator(raw))
  {
    var body := WithoutTerminator(raw);
    if !("00" <= tag) && |body| >= 2 {
      TextSubfields(body[2..]);
      assert body[..1] == [body[0]] && body[1..2] == [body[1]];
    }
  }

  lemma EntryMeaning(bytes: string, base: nat, entry: string)
    requires |entry| == 12
    ensures EntryReads(bytes, base, entry, EntryField(bytes, base, entry))
  {
    if AllDigits(entry[3..7]) && AllDigits(entry[7..12]) {
      var length, offset := ValueOf(entry[3..7]), ValueOf(entry[7..12]);
      var raw := Slice(bytes, base + offset, base + offset + length);
      FieldMeans(entry[..3], raw);
      assert IsCut(bytes, base + offset, length, raw);
      assert EntryField(bytes, base, entry) == [FieldOf(entry[..3], raw)];
    }
  }

  /** The fields are those of the entries, one after the other. */
  ghost predicate FieldsRead(bytes: string, base: nat, directory: string, fields: seq<Field>) {
    exists pieces: seq<seq<Field>> :: EntryPieces(bytes, base, directory, pieces) && Gathers(fields, pieces)
  }

  ghost predicate EntryPieces(bytes: string, base: nat, directory: string, pieces: seq<seq<Field>>) {
    && |directory| == 12 * |pieces|
    && forall k :: 0 <= k < |pieces| ==> EntryReads(bytes, base, directory[12 * k..12 * k + 12], pieces[k])
  }

  lemma {:induction false} DirectoryMeans(bytes: string, base: nat, directory: string, n: nat)
    requires |directory| == 12 * n
    ensures FieldsRead(bytes, base, directory, EntryFields(bytes, base, directory))
    decreases n
  {
    if n == 0 {
      GathersNone<Field>();
      assert EntryPieces(bytes, base, directory, []);
    } else {
      var k := |directory| - 12;
      DirectoryMeans(bytes, base, directory[..k], n - 1);
      EntriesSnoc(bytes, base, directory, n);
    }
  }

  lemma EntriesSnoc(bytes: string, base: nat, directory: string, n: nat)
    requires n > 0 && |directory| == 12 * n
    requires var before := directory[..|directory| - 12];
      FieldsRead(bytes, base, before, EntryFields(bytes, base, before))
    ensures FieldsRead(bytes, base, directory, EntryFields(bytes, base, directory))
  {
    var k := |directory| - 12;
    var before, last := directory[..k], EntryField(bytes, base, directory[k..]);
    var pieces: seq<seq<Field>> :|
      EntryPieces(bytes, base, before, pieces) && Gathers(EntryFields(bytes, base, before), pieces);
    EntryMeaning(bytes, base, directory[k..]);
    GathersSnoc(EntryFields(bytes, base, before), pieces, last);
    PiecesSnoc(bytes, base, directory, pieces, last);
  }

  lemma PiecesSnoc(bytes: string, base: nat, directory: string, pieces: seq<seq<Field>>, last: seq<Field>)
    requires |directory| >= 12 && EntryPieces(bytes, base, directory[..|directory| - 12], pieces)
    requires EntryReads(bytes, base, directory[|directory| - 12..], last)
    ensures EntryPieces(bytes, base, directory, pieces + [last])
  {
    var before, all := directory[..|directory| - 12], pieces + [last];
    forall j | 0 <= j < |all| ensures EntryReads(bytes, base, directory[12 * j..12 * j + 12], all[j]) {
      if j < |pieces| {
        assert before[12 * j..12 * j + 12] == directory[12 * j..12 * j + 12];
        assert EntryReads(bytes, base, before[12 * j..12 * j + 12], pieces[j]);
      } else {
        assert directory[12 * j..12 * j + 12] == directory[|directory| - 12..];
      }
    }
  }

  /** What a chunk is read as: nothing without a frame; otherwise its leader and the fields its directory names. */
  lemma ParsedMeans(bytes: string)
    ensures match Parsed(bytes)
      case None => forall base, end :: !IsFrame(bytes, base, end)
      case Some(record) => exists base: nat, end: nat ::
        && IsFrame(bytes, base, end) && record.leader == bytes[..24]
        && FieldsRead(bytes, base, bytes[24..end], record.fields)
  {
    FrameMeans(bytes);
    if Frame(bytes).Some? {
      var (base, directory) := Frame(bytes).value;
      DirectoryMeans(bytes, base, directory, |directory| / 12);
      assert IsFrame(bytes, base, 24 + |directory|);
    }
  }

  // ---------------------------------------------------------------- the records of a file

  lemma {:induction false} RecordsOfChunks(chunks: seq<string>)
    ensures Gathers(ParseChunks(chunks), seq(|chunks|, k requires 0 <= k < |chunks| =>
      if Parsed(chunks[k]).Some? then [Parsed(chunks[k]).value] else []))
  {
    var pieces := seq(|chunks|, k requires 0 <= k < |chunks| =>
      if Parsed(chunks[k]).Some? then [Parsed(chunks[k]).value] else []);
    if chunks == [] {
      GathersNone<Record>();
      assert pieces == [];
    } else {
      var n := |chunks| - 1;
      RecordsOfChunks(chunks[..n]);
      var init := chunks[..n];
      GathersSnoc(ParseChunks(init), seq(|init|, k requires 0 <= k < |init| =>
        if Parsed(init[k]).Some? then [Parsed(init[k]).value] else []), pieces[n]);
      assert pieces == seq(|init|, k requires 0 <= k < |init| =>
        if Parsed(init[k]).Some? then [Parsed(init[k]).value] else []) + [pieces[n]];
    }
  }

  /** The records of a file are those of its chunks that can be read, in order. */
  lemma RecordsMean(data: string)
    ensures exists chunks :: (
      && ChunksOfParts(Split(data, '\U{1d}'), chunks)
      && Gathers(Records(data), seq(|chunks|, k requires 0 <= k < |chunks| =>
           if Parsed(chunks[k]).Some? then [Parsed(chunks[k]).value] else [])))
  {
    ChunksMean(data);
    RecordsOfChunks(Chunks(data));
  }
}
