/**
 Reading back what the ISO 2709 printer writes (the printer is `_encode_marc_record` in
 tests/security/test_sprint25_marc_csv.py).
 */
module MarcRoundTrip {
  import opened Wrappers
  import opened Text
  import opened Decimal
  import opened Marc

  datatype PrintedSubfield = PrintedSubfield(code: char, value: string)

  /** A field as the printer takes it. */
  datatype PrintedField =
    | Control(tag: string, text: string)
    | Data(tag: string, ind1: char, ind2: char, subfields: seq<PrintedSubfield>)

  datatype PrintedRecord = PrintedRecord(template: string, fields: seq<PrintedField>)

  // ---------------------------------------------------------------- printer

  function SubfieldsText(subs: seq<PrintedSubfield>): string {
    if subs == [] then ""
    else SubfieldsText(subs[..|subs| - 1]) + ([SUBFIELD_DELIMITER, subs[|subs| - 1].code] + subs[|subs| - 1].value)
  }

  /** The bytes of a field, without its terminator. */
  function FieldText(f: PrintedField): string {
    match f
    case Control(_, text) => text
    case Data(_, ind1, ind2, subs) => [ind1, ind2] + SubfieldsText(subs)
  }

  function FieldChunk(f: PrintedField): string {
    FieldText(f) + [FIELD_TERMINATOR]
  }

  function DataText(fields: seq<PrintedField>): string {
    if fields == [] then "" else DataText(fields[..|fields| - 1]) + FieldChunk(fields[|fields| - 1])
  }

  /** `f"{tag:0>3}{length:04d}{offset:05d}"` */
  function Entry(f: PrintedField, offset: nat): string {
    EntryText(PadTag(f.tag), |FieldChunk(f)|, offset)
  }

  function EntryText(tag: string, length: nat, offset: nat): string {
    tag + (Pad(length, 4) + Pad(offset, 5))
  }

  function PadTag(tag: string): string {
    if |tag| >= 3 then tag else Zeros(3 - |tag|) + tag
  }

  function Directory(fields: seq<PrintedField>): string {
    if fields == [] then ""
    else
      var before := fields[..|fields| - 1];
      Directory(before) + Entry(fields[|fields| - 1], |DataText(before)|)
  }

  function BaseAddress(r: PrintedRecord): nat {
    24 + |Directory(r.fields)| + 1
  }

  function Leader(r: PrintedRecord): string
    requires |r.template| >= 17
  {
    LeaderText(TotalLength(r), BaseAddress(r), r.template)
  }

  function TotalLength(r: PrintedRecord): nat {
    BaseAddress(r) + |DataText(r.fields)| + 1
  }

  function LeaderText(total: nat, base: nat, template: string): string
    requires |template| >= 17
  {
    Pad(total, 5) + template[5..12] + Pad(base, 5) + template[17..]
  }

  /** The record without its terminator. */
  function Payload(r: PrintedRecord): string
    requires |r.template| >= 17
  {
    Leader(r) + (Directory(r.fields) + ([FIELD_TERMINATOR] + DataText(r.fields)))
  }

  function Encode(r: PrintedRecord): string
    requires |r.template| >= 17
  {
    Payload(r) + [RECORD_TERMINATOR]
  }

  // ---------------------------------------------------------------- what the format can hold

  predicate Plain(c: char) {
    c != FIELD_TERMINATOR && c != RECORD_TERMINATOR && c != SUBFIELD_DELIMITER
  }

  predicate PlainText(s: string) {
    forall k :: 0 <= k < |s| ==> Plain(s[k])
  }

  /** The tag takes three characters and tells control fields from data fields; no text holds a delimiter. */
  predicate FieldFits(f: PrintedField) {
    && |f.tag| <= 3 && PlainText(f.tag)
    && (f.Control? <==> "00" <= PadTag(f.tag))
    && |FieldChunk(f)| <= 9999
    && (match f
        case Control(_, text) => PlainText(text)
        case Data(_, ind1, ind2, subs) =>
          Plain(ind1) && Plain(ind2)
          && forall k :: 0 <= k < |subs| ==> Plain(subs[k].code) && PlainText(subs[k].value))
  }

  /** Lengths fit four digits; offsets, addresses and the record length fit five. */
  predicate Fits(r: PrintedRecord) {
    && |r.template| == 24 && PlainText(r.template)
    && (forall k :: 0 <= k < |r.fields| ==> FieldFits(r.fields[k]))
    && TotalLength(r) <= 99999
  }

  // ---------------------------------------------------------------- what comes back

  function SubfieldsBack(subs: seq<PrintedSubfield>): seq<Subfield> {
    seq(|subs|, k requires 0 <= k < |subs| => Subfield([subs[k].code], subs[k].value))
  }

  function FieldBack(f: PrintedField): Field {
    match f
    case Control(tag, text) => Field(PadTag(tag), " ", " ", text, None)
    case Data(tag, ind1, ind2, subs) => Field(PadTag(tag), [ind1], [ind2], "", Some(SubfieldsBack(subs)))
  }

  function FieldsBack(fields: seq<PrintedField>): seq<Field> {
    seq(|fields|, k requires 0 <= k < |fields| => FieldBack(fields[k]))
  }

  function RecordBack(r: PrintedRecord): Record
    requires |r.template| >= 17
  {
    Record(Leader(r), FieldsBack(r.fields))
  }

  // ---------------------------------------------------------------- one field

  /** Splitting at delimiters appends: the piece that is open at the end of a takes in the start of b. */
  lemma {:induction false} SplitSnoc(s: string, piece: string, sep: char)
    requires Free(piece, sep)
    ensures Split(s + ([sep] + piece), sep) == Split(s, sep) + [piece]
  {
    if s == "" {
      assert s + ([sep] + piece) == [sep] + piece;
      SplitFree(piece, sep);
      assert ([sep] + piece)[1..] == piece;
    } else {
      assert (s + ([sep] + piece))[1..] == s[1..] + ([sep] + piece);
      SplitSnoc(s[1..], piece, sep);
    }
  }

  lemma {:induction false} SplitFree(piece: string, sep: char)
    requires Free(piece, sep)
    ensures Split(piece, sep) == [piece]
  {
    if piece != "" {
      SplitFree(piece[1..], sep);
      assert piece == [piece[0]] + piece[1..];
    }
  }

  lemma {:induction false} SubfieldsRoundTrip(subs: seq<PrintedSubfield>)
    requires forall k :: 0 <= k < |subs| ==> Plain(subs[k].code) && PlainText(subs[k].value)
    ensures |Split(SubfieldsText(subs), SUBFIELD_DELIMITER)| == |subs| + 1
    ensures SubfieldsOf(Split(SubfieldsText(subs), SUBFIELD_DELIMITER)[1..]) == SubfieldsBack(subs)
  {
    if subs != [] {
      var init, last := subs[..|subs| - 1], subs[|subs| - 1];
      SubfieldsRoundTrip(init);
      var piece := [last.code] + last.value;
      assert [SUBFIELD_DELIMITER, last.code] + last.value == [SUBFIELD_DELIMITER] + piece;
      SplitSnoc(SubfieldsText(init), piece, SUBFIELD_DELIMITER);
      var pieces := Split(SubfieldsText(init), SUBFIELD_DELIMITER);
      OnePieceMore(pieces[1..], last);
      assert (pieces + [piece])[1..] == pieces[1..] + [piece];
      assert SubfieldsBack(subs) == SubfieldsBack(init) + [Subfield([last.code], last.value)];
    }
  }

  lemma OnePieceMore(pieces: seq<string>, last: PrintedSubfield)
    ensures SubfieldsOf(pieces + [[last.code] + last.value])
         == SubfieldsOf(pieces) + [Subfield([last.code], last.value)]
  {
    var all := pieces + [[last.code] + last.value];
    assert all[..|all| - 1] == pieces;
  }

  lemma FieldRoundTrip(f: PrintedField)
    requires FieldFits(f)
    ensures FieldOf(PadTag(f.tag), FieldChunk(f)) == FieldBack(f)
  {
    assert WithoutTerminator(FieldChunk(f)) == FieldText(f);
    if f.Data? {
      var bytes := FieldText(f);
      assert bytes[..1] == [f.ind1] && bytes[1..2] == [f.ind2] && bytes[2..] == SubfieldsText(f.subfields);
      SubfieldsRoundTrip(f.subfields);
    }
  }

  // ---------------------------------------------------------------- the directory

  lemma NumberPad(n: nat, w: nat)
    requires w > 0 && n < Pow10(w)
    ensures |Pad(n, w)| == w && Number(Pad(n, w)) == Some(n)
  {
    PadWidth(n, w);
    ValuePad(n, w);
  }

  lemma Powers()
    ensures Pow10(4) == 10000 && Pow10(5) == 100000
  {
    assert Pow10(2) == 100 && Pow10(3) == 1000;
  }

  lemma ThreeParts(a: string, b: string, c: string)
    requires |a| == 3 && |b| == 4 && |c| == 5
    ensures var e := a + (b + c); |e| == 12 && e[..3] == a && e[3..7] == b && e[7..12] == c
  {
  }

  lemma EntryTextShape(tag: string, length: nat, offset: nat)
    requires |tag| == 3 && length <= 9999 && offset <= 99999
    ensures var e := EntryText(tag, length, offset);
      |e| == 12 && e[..3] == tag && Number(e[3..7]) == Some(length) && Number(e[7..12]) == Some(offset)
  {
    Powers();
    NumberPad(length, 4);
    NumberPad(offset, 5);
    ThreeParts(tag, Pad(length, 4), Pad(offset, 5));
  }

  lemma EntryShape(f: PrintedField, offset: nat)
    requires FieldFits(f) && offset <= 99999
    ensures var e := Entry(f, offset);
      && |e| == 12 && e[..3] == PadTag(f.tag)
      && Number(e[3..7]) == Some(|FieldChunk(f)|) && Number(e[7..12]) == Some(offset)
  {
    EntryTextShape(PadTag(f.tag), |FieldChunk(f)|, offset);
  }

  lemma {:induction false} DirectoryShape(fields: seq<PrintedField>)
    requires forall k :: 0 <= k < |fields| ==> FieldFits(fields[k])
    requires |DataText(fields)| <= 99999
    ensures |Directory(fields)| == 12 * |fields|
  {
    if fields != [] {
      DirectoryShape(fields[..|fields| - 1]);
      EntryShape(fields[|fields| - 1], |DataText(fields[..|fields| - 1])|);
    }
  }

  /** A field's bytes sit where its entry says: after the text of the fields before it. */
  lemma SliceAt(head: string, before: string, chunk: string, after: string)
    ensures Slice(head + (before + chunk + after), |head| + |before|, |head| + |before| + |chunk|) == chunk
  {
    var all := head + (before + chunk + after);
    assert chunk != "" ==> all[|head| + |before|..|head| + |before| + |chunk|] == chunk;
    assert chunk != "" && after == "" ==> all[|head| + |before|..] == chunk;
  }

  /** The directory loop gives back the fields, given that the data area follows the head of the record. */
  lemma {:induction false} DirectoryRoundTrip(head: string, fields: seq<PrintedField>, after: string)
    requires forall k :: 0 <= k < |fields| ==> FieldFits(fields[k])
    requires |DataText(fields)| <= 99999
    ensures EntryFields(head + (DataText(fields) + after), |head|, Directory(fields)) == FieldsBack(fields)
  {
    if fields != [] {
      var init, last := fields[..|fields| - 1], fields[|fields| - 1];
      DirectoryRoundTrip(head, init, FieldChunk(last) + after);
      DirectoryStep(head, init, last, after);
      FieldsBackSnoc(fields);
    }
  }

  lemma DirectoryStep(head: string, init: seq<PrintedField>, last: PrintedField, after: string)
    requires FieldFits(last) && |DataText(init)| <= 99999
    ensures |Entry(last, |DataText(init)|)| == 12
    ensures var bytes := head + (DataText(init) + FieldChunk(last) + after);
      && bytes == head + (DataText(init) + (FieldChunk(last) + after))
      && EntryFields(bytes, |head|, Directory(init) + Entry(last, |DataText(init)|))
           == EntryFields(bytes, |head|, Directory(init)) + [FieldBack(last)]
  {
    var before, chunk := DataText(init), FieldChunk(last);
    assert before + chunk + after == before + (chunk + after);
    EntryBack(head, before, last, after);
    LastEntry(head + (before + chunk + after), |head|, Directory(init), Entry(last, |before|));
  }

  lemma FieldsBackSnoc(fields: seq<PrintedField>)
    requires fields != []
    ensures FieldsBack(fields) == FieldsBack(fields[..|fields| - 1]) + [FieldBack(fields[|fields| - 1])]
  {
  }

  lemma EntryBack(head: string, before: string, f: PrintedField, after: string)
    requires FieldFits(f) && |before| <= 99999
    ensures |Entry(f, |before|)| == 12
    ensures EntryField(head + (before + FieldChunk(f) + after), |head|, Entry(f, |before|)) == [FieldBack(f)]
  {
    EntryShape(f, |before|);
    FieldRoundTrip(f);
    SlicedEntry(head, before, FieldChunk(f), after, Entry(f, |before|));
  }

  lemma SlicedEntry(head: string, before: string, chunk: string, after: string, entry: string)
    requires |entry| == 12 && Number(entry[3..7]) == Some(|chunk|) && Number(entry[7..12]) == Some(|before|)
    ensures EntryField(head + (before + chunk + after), |head|, entry) == [FieldOf(entry[..3], chunk)]
  {
    var bytes := head + (before + chunk + after);
    SliceAt(head, before, chunk, after);
    EntryMeans(bytes, |head|, entry, |chunk|, |before|, chunk);
  }

  lemma LastEntry(bytes: string, base: nat, directory: string, entry: string)
    requires |entry| == 12
    ensures EntryFields(bytes, base, directory + entry)
      == EntryFields(bytes, base, directory) + EntryField(bytes, base, entry)
  {
    var all := directory + entry;
    assert all[..|all| - 12] == directory && all[|all| - 12..] == entry;
  }

  // ---------------------------------------------------------------- one record

  lemma PlainConcat(a: string, b: string)
    requires PlainText(a) && PlainText(b)
    ensures PlainText(a + b)
  {
  }

  lemma DigitsArePlain(s: string)
    requires AllDigits(s)
    ensures PlainText(s)
  {
  }

  lemma EntryPlain(f: PrintedField, offset: nat)
    requires FieldFits(f)
    ensures PlainText(Entry(f, offset))
  {
    DigitsArePlain(Zeros(if |f.tag| < 3 then 3 - |f.tag| else 0));
    DigitsArePlain(Pad(|FieldChunk(f)|, 4));
    DigitsArePlain(Pad(offset, 5));
    PlainConcat(Pad(|FieldChunk(f)|, 4), Pad(offset, 5));
    assert PlainText(PadTag(f.tag));
    PlainConcat(PadTag(f.tag), Pad(|FieldChunk(f)|, 4) + Pad(offset, 5));
  }

  lemma {:induction false} DirectoryPlain(fields: seq<PrintedField>)
    requires forall k :: 0 <= k < |fields| ==> FieldFits(fields[k])
    ensures PlainText(Directory(fields))
  {
    if fields != [] {
      var init := fields[..|fields| - 1];
      DirectoryPlain(init);
      EntryPlain(fields[|fields| - 1], |DataText(init)|);
      PlainConcat(Directory(init), Entry(fields[|fields| - 1], |DataText(init)|));
    }
  }

  predicate LeaderOk(leader: string, base: nat) {
    |leader| == 24 && PlainText(leader) && IsDigit(leader[0]) && Number(leader[12..17]) == Some(base)
  }

  lemma LeaderShape(r: PrintedRecord)
    requires Fits(r)
    ensures LeaderOk(Leader(r), BaseAddress(r))
  {
    LeaderTextShape(TotalLength(r), BaseAddress(r), r.template);
  }

  lemma LeaderTextShape(total: nat, base: nat, template: string)
    requires |template| == 24 && PlainText(template) && base <= total <= 99999
    ensures LeaderOk(LeaderText(total, base, template), base)
  {
    FiveDigits(total);
    FiveDigits(base);
    LeaderParts(Pad(total, 5), template[5..12], Pad(base, 5), template[17..]);
  }

  lemma FiveDigits(n: nat)
    requires n <= 99999
    ensures |Pad(n, 5)| == 5 && Number(Pad(n, 5)) == Some(n) && PlainText(Pad(n, 5))
  {
    Powers();
    NumberPad(n, 5);
    DigitsArePlain(Pad(n, 5));
  }

  lemma LeaderParts(a: string, b: string, c: string, d: string)
    requires |a| == 5 && |b| == 7 && |c| == 5 && |d| == 7 && AllDigits(a)
    requires PlainText(a) && PlainText(b) && PlainText(c) && PlainText(d)
    ensures var leader := a + b + c + d;
      |leader| == 24 && leader[12..17] == c && IsDigit(leader[0]) && PlainText(leader)
  {
    PlainConcat(a, b);
    PlainConcat(a + b, c);
    PlainConcat(a + b + c, d);
    assert (a + b + c + d)[0] == a[0];
  }

  /** The directory of a printed record is found between the leader and the first field terminator. */
  lemma FrameBack(r: PrintedRecord)
    requires Fits(r)
    ensures Frame(Payload(r)) == Some((BaseAddress(r), Directory(r.fields)))
  {
    LeaderShape(r);
    DirectoryShape(r.fields);
    DirectoryPlain(r.fields);
    Dozens(|r.fields|);
    FrameFound(Leader(r), BaseAddress(r), Directory(r.fields), DataText(r.fields));
  }

  lemma Dozens(n: nat)
    ensures 12 * n % 12 == 0
  {
  }

  lemma FrameFound(leader: string, base: nat, directory: string, data: string)
    requires |leader| == 24 && Number(leader[12..17]) == Some(base)
    requires PlainText(directory) && |directory| % 12 == 0 && 24 + |directory| <= base
    ensures Frame(leader + (directory + ([FIELD_TERMINATOR] + data))) == Some((base, directory))
  {
    var body := directory + ([FIELD_TERMINATOR] + data);
    var bytes := leader + body;
    assert bytes[24..] == body && bytes[12..17] == leader[12..17];
    FindAt(body, |directory|, FIELD_TERMINATOR);
    assert bytes[24..24 + |directory|] == directory;
  }

  lemma ParsedBack(r: PrintedRecord)
    requires Fits(r)
    ensures Parsed(Payload(r)) == Some(RecordBack(r))
  {
    LeaderShape(r);
    FrameBack(r);
    DirectoryRoundTrip(Leader(r) + (Directory(r.fields) + [FIELD_TERMINATOR]), r.fields, "");
    PartsParsed(Leader(r), Directory(r.fields), DataText(r.fields), BaseAddress(r), FieldsBack(r.fields));
  }

  lemma PartsParsed(leader: string, directory: string, data: string, base: nat, fields: seq<Field>)
    requires |leader| == 24 && base == 24 + |directory| + 1
    requires Frame(leader + (directory + ([FIELD_TERMINATOR] + data))) == Some((base, directory))
    requires var head := leader + (directory + [FIELD_TERMINATOR]);
      EntryFields(head + (data + ""), |head|, directory) == fields
    ensures Parsed(leader + (directory + ([FIELD_TERMINATOR] + data))) == Some(Record(leader, fields))
  {
    PayloadParts(leader, directory, data);
    FrameParsed(leader + (directory + ([FIELD_TERMINATOR] + data)), base, directory);
  }

  lemma PayloadParts(leader: string, directory: string, data: string)
    ensures leader + (directory + [FIELD_TERMINATOR]) + (data + "")
         == leader + (directory + ([FIELD_TERMINATOR] + data))
    ensures (leader + (directory + ([FIELD_TERMINATOR] + data)))[..|leader|] == leader
  {
  }

  lemma FrameParsed(bytes: string, base: nat, directory: string)
    requires Frame(bytes) == Some((base, directory)) && |bytes| >= 24
    ensures Parsed(bytes) == Some(Record(bytes[..24], EntryFields(bytes, base, directory)))
  {
  }

  // ---------------------------------------------------------------- a whole file

  lemma FreeConcat(a: string, b: string, c: char)
    requires Free(a, c) && Free(b, c)
    ensures Free(a + b, c)
  {
  }

  lemma {:induction false} SubfieldsFree(subs: seq<PrintedSubfield>)
    requires forall k :: 0 <= k < |subs| ==> Plain(subs[k].code) && PlainText(subs[k].value)
    ensures Free(SubfieldsText(subs), RECORD_TERMINATOR)
  {
    if subs != [] {
      var last := subs[|subs| - 1];
      SubfieldsFree(subs[..|subs| - 1]);
      FreeConcat([SUBFIELD_DELIMITER, last.code], last.value, RECORD_TERMINATOR);
      FreeConcat(SubfieldsText(subs[..|subs| - 1]), [SUBFIELD_DELIMITER, last.code] + last.value, RECORD_TERMINATOR);
    }
  }

  lemma ChunkFree(f: PrintedField)
    requires FieldFits(f)
    ensures Free(FieldChunk(f), RECORD_TERMINATOR)
  {
    if f.Data? {
      SubfieldsFree(f.subfields);
      FreeConcat([f.ind1, f.ind2], SubfieldsText(f.subfields), RECORD_TERMINATOR);
    }
    FreeConcat(FieldText(f), [FIELD_TERMINATOR], RECORD_TERMINATOR);
  }

  lemma {:induction false} DataFree(fields: seq<PrintedField>)
    requires forall k :: 0 <= k < |fields| ==> FieldFits(fields[k])
    ensures Free(DataText(fields), RECORD_TERMINATOR)
  {
    if fields != [] {
      DataFree(fields[..|fields| - 1]);
      ChunkFree(fields[|fields| - 1]);
      FreeConcat(DataText(fields[..|fields| - 1]), FieldChunk(fields[|fields| - 1]), RECORD_TERMINATOR);
    }
  }

  lemma PayloadFree(r: PrintedRecord)
    requires Fits(r)
    ensures Free(Payload(r), RECORD_TERMINATOR)
  {
    LeaderShape(r);
    DirectoryPlain(r.fields);
    DataFree(r.fields);
    FreeConcat([FIELD_TERMINATOR], DataText(r.fields), RECORD_TERMINATOR);
    FreeConcat(Directory(r.fields), [FIELD_TERMINATOR] + DataText(r.fields), RECORD_TERMINATOR);
    FreeConcat(Leader(r), Directory(r.fields) + ([FIELD_TERMINATOR] + DataText(r.fields)), RECORD_TERMINATOR);
  }

  /** A piece of a file: a printed record, or some terminated bytes the parser refuses. */
  datatype Piece = Good(record: PrintedRecord) | Noise(bytes: string)

  predicate PieceFits(p: Piece) {
    match p
    case Good(r) => Fits(r)
    case Noise(bytes) => Free(bytes, RECORD_TERMINATOR) && Parsed(bytes).None?
  }

  function PieceBytes(p: Piece): string
    requires PieceFits(p)
  {
    match p
    case Good(r) => Payload(r)
    case Noise(bytes) => bytes
  }

  function PieceRecords(p: Piece): seq<Record>
    requires PieceFits(p)
  {
    match p
    case Good(r) => [RecordBack(r)]
    case Noise(_) => []
  }

  function FileOf(pieces: seq<Piece>): string
    requires forall k :: 0 <= k < |pieces| ==> PieceFits(pieces[k])
  {
    if pieces == [] then "" else PieceBytes(pieces[0]) + [RECORD_TERMINATOR] + FileOf(pieces[1..])
  }

  function RecordsOf(pieces: seq<Piece>): seq<Record>
    requires forall k :: 0 <= k < |pieces| ==> PieceFits(pieces[k])
  {
    if pieces == [] then [] else PieceRecords(pieces[0]) + RecordsOf(pieces[1..])
  }

  lemma {:induction false} ParseChunksAppend(a: seq<string>, b: seq<string>)
    ensures ParseChunks(a + b) == ParseChunks(a) + ParseChunks(b)
  {
    if b == [] {
      assert a + b == a;
    } else {
      assert (a + b)[..|a + b| - 1] == a + b[..|b| - 1];
      ParseChunksAppend(a, b[..|b| - 1]);
    }
  }

  /** Cutting a file behind a terminator cuts its records there, whatever the two parts hold. */
  lemma RecordsAppend(a: string, b: string)
    ensures Records(a + [RECORD_TERMINATOR] + b) == Records(a + [RECORD_TERMINATOR]) + Records(b)
  {
    ChunksAppend(a, b);
    ParseChunksAppend(Chunks(a + [RECORD_TERMINATOR]), Chunks(b));
  }

  lemma LoneChunk(s: string)
    ensures ParseChunks(Lone(s)) == if Parsed(s).Some? then [Parsed(s).value] else []
  {
    if s != "" {
      assert [s][..0] == [];
    }
  }

  lemma PieceRead(p: Piece, rest: string)
    requires PieceFits(p)
    ensures Records(PieceBytes(p) + [RECORD_TERMINATOR] + rest) == PieceRecords(p) + Records(rest)
  {
    var bytes := PieceBytes(p);
    if p.Good? {
      PayloadFree(p.record);
      ParsedBack(p.record);
    }
    ChunksStep(bytes, rest);
    ParseChunksAppend(Lone(bytes), Chunks(rest));
    LoneChunk(bytes);
  }

  /**
   ISO 2709 round trip: a file of printed records, with any terminated bytes the parser refuses strewn among
   them, is read back as exactly those records, in order.
   */
  lemma {:induction false} FileRoundTrip(pieces: seq<Piece>)
    requires forall k :: 0 <= k < |pieces| ==> PieceFits(pieces[k])
    ensures Records(FileOf(pieces)) == RecordsOf(pieces)
  {
    if pieces != [] {
      FileRoundTrip(pieces[1..]);
      PieceRead(pieces[0], FileOf(pieces[1..]));
    }
  }

  /** The same when the file lacks the terminator of its last record. */
  lemma UnterminatedRoundTrip(pieces: seq<Piece>, last: PrintedRecord)
    requires forall k :: 0 <= k < |pieces| ==> PieceFits(pieces[k])
    requires Fits(last)
    ensures Records(FileOf(pieces) + Payload(last)) == RecordsOf(pieces) + [RecordBack(last)]
  {
    FileRoundTrip(pieces);
    if pieces != [] {
      FileTerminated(pieces);
    }
    LastAppended(FileOf(pieces), last);
  }

  lemma LastAppended(all: string, last: PrintedRecord)
    requires Fits(last) && (all == "" || all[|all| - 1] == RECORD_TERMINATOR)
    ensures Records(all + Payload(last)) == Records(all) + [RecordBack(last)]
  {
    LastRead(last);
    if all == "" {
      assert all + Payload(last) == Payload(last);
      NoRecords();
    } else {
      JoinTerminated(all, Payload(last));
    }
  }

  lemma NoRecords()
    ensures Records("") == []
  {
  }

  lemma JoinTerminated(all: string, bytes: string)
    requires all != "" && all[|all| - 1] == RECORD_TERMINATOR
    ensures Records(all + bytes) == Records(all) + Records(bytes)
  {
    assert all == all[..|all| - 1] + [RECORD_TERMINATOR];
    RecordsAppend(all[..|all| - 1], bytes);
  }

  lemma LastRead(last: PrintedRecord)
    requires Fits(last)
    ensures Records(Payload(last)) == [RecordBack(last)]
  {
    PayloadFree(last);
    ParsedBack(last);
    PayloadStarts(last);
    FindNone(Payload(last), RECORD_TERMINATOR);
    LoneChunk(Payload(last));
  }

  lemma PayloadStarts(r: PrintedRecord)
    requires Fits(r)
    ensures Payload(r) != "" && !IsPadding(Payload(r))
  {
    LeaderShape(r);
    assert Payload(r)[0] == Leader(r)[0];
  }

  lemma {:induction false} FileTerminated(pieces: seq<Piece>)
    requires pieces != [] && forall k :: 0 <= k < |pieces| ==> PieceFits(pieces[k])
    ensures var all := FileOf(pieces); all != "" && all[|all| - 1] == RECORD_TERMINATOR
  {
    if |pieces| > 1 {
      FileTerminated(pieces[1..]);
    }
  }
}
