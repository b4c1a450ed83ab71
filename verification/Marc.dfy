/**
 ISO 2709 records (ISO 2709, clause 4; app/importers/marc.py). A file is a string with one character per
 byte, so that turning a field's bytes into text is the identity on it.
 */
module Marc {
  import opened Wrappers
  import opened Text
  import opened Decimal

  const FIELD_TERMINATOR: char := '\U{1e}'
  const RECORD_TERMINATOR: char := '\U{1d}'
  const SUBFIELD_DELIMITER: char := '\U{1f}'

  datatype Subfield = Subfield(code: string, value: string)

  /** A control field has no subfields list; a data field has one, possibly empty, and no value. */
  datatype Field = Field(tag: string, indicator1: string, indicator2: string, value: string,
                         subfields: Option<seq<Subfield>>)

  datatype Record = Record(leader: string, fields: seq<Field>)

  // ---------------------------------------------------------------- splitting a file

  /** What `strip(b"\x00\n\r ")` would leave nothing of. */
  predicate IsPadding(s: string) {
    forall k :: 0 <= k < |s| ==> s[k] == '\0' || s[k] == '\n' || s[k] == '\r' || s[k] == ' '
  }

  /** The character does not occur in the text. */
  predicate Free(s: string, c: char) {
    forall j :: 0 <= j < |s| ==> s[j] != c
  }

  /** The index of the first occurrence, or the length of the text. */
  function Find(s: string, c: char): (k: nat)
    ensures k <= |s| && (k < |s| ==> s[k] == c)
    ensures forall j :: 0 <= j < k ==> s[j] != c
  {
    if s == [] || s[0] == c then 0 else Find(s[1..], c) + 1
  }

  /** The non-empty chunks between terminators; what follows the last one counts unless it is padding. */
  function Chunks(data: string): seq<string> {
    var k := Find(data, RECORD_TERMINATOR);
    if k == |data| then (if IsPadding(data) then [] else [data])
    else (if k > 0 then [data[..k]] else []) + Chunks(data[k + 1..])
  }

  lemma FindAt(s: string, k: nat, c: char)
    requires k < |s| && s[k] == c && forall j :: 0 <= j < k ==> s[j] != c
    ensures Find(s, c) == k
  {
  }

  lemma FindNone(s: string, c: char)
    requires Free(s, c)
    ensures Find(s, c) == |s|
  {
  }

  function Lone(s: string): seq<string> {
    if s == "" then [] else [s]
  }

  /** The chunk before a terminator, then the rest of the file. */
  lemma ChunksStep(head: string, rest: string)
    requires Free(head, RECORD_TERMINATOR)
    ensures Chunks(head + [RECORD_TERMINATOR] + rest) == Lone(head) + Chunks(rest)
  {
    var data := head + [RECORD_TERMINATOR] + rest;
    assert data[..|head|] == head && data[|head| + 1..] == rest;
    FindAt(data, |head|, RECORD_TERMINATOR);
  }

  lemma AppendStep(head: string, mid: string, all: string, b: string)
    requires Free(head, RECORD_TERMINATOR) && Chunks(all) == Chunks(mid) + Chunks(b)
    ensures Chunks(head + [RECORD_TERMINATOR] + all) == Chunks(head + [RECORD_TERMINATOR] + mid) + Chunks(b)
  {
    ChunksStep(head, all);
    ChunksStep(head, mid);
  }

  /** Cutting a file at a terminator cuts its chunks there. */
  lemma {:induction false} ChunksAppend(a: string, b: string)
    ensures Chunks(a + [RECORD_TERMINATOR] + b) == Chunks(a + [RECORD_TERMINATOR]) + Chunks(b)
    decreases |a|
  {
    var k := Find(a, RECORD_TERMINATOR);
    if k < |a| {
      var head, rest := a[..k], a[k + 1..];
      ChunksAppend(rest, b);
      AppendStep(head, rest + [RECORD_TERMINATOR], rest + [RECORD_TERMINATOR] + b, b);
      Regroup(a, k, b);
    } else {
      AppendStep(a, "", b, b);
      assert a + [RECORD_TERMINATOR] + "" == a + [RECORD_TERMINATOR];
    }
  }

  lemma Regroup(a: string, k: nat, b: string)
    requires k < |a| && a[k] == RECORD_TERMINATOR
    ensures var head, rest := a[..k], a[k + 1..];
      && a + [RECORD_TERMINATOR] + b == head + [RECORD_TERMINATOR] + (rest + [RECORD_TERMINATOR] + b)
      && a + [RECORD_TERMINATOR] == head + [RECORD_TERMINATOR] + (rest + [RECORD_TERMINATOR])
  {
  }

  /** At a terminator, the piece since the last one becomes a chunk. */
  lemma AtTerminator(data: string, start: nat, idx: nat, chunks: seq<string>)
    requires start <= idx < |data| && data[idx] == RECORD_TERMINATOR
    requires forall j :: start <= j < idx ==> data[j] != RECORD_TERMINATOR
    ensures chunks + Chunks(data[start..]) == (chunks + Lone(data[start..idx])) + Chunks(data[idx + 1..])
  {
    assert data[start..] == data[start..idx] + [RECORD_TERMINATOR] + data[idx + 1..];
    ChunksStep(data[start..idx], data[idx + 1..]);
  }

  /** The pieces found so far account for the file up to here. */
  ghost predicate SplitUpTo(data: string, start: nat, chunks: seq<string>)
    requires start <= |data|
  {
    Chunks(data) == chunks + Chunks(data[start..])
  }

  lemma AtEnd(data: string, start: nat, chunks: seq<string>)
    requires start <= |data| && SplitUpTo(data, start, chunks)
    requires forall j :: start <= j < |data| ==> data[j] != RECORD_TERMINATOR
    ensures Chunks(data) == chunks + Remainder(data[start..])
  {
    ChunksFree(data[start..]);
  }

  /** What follows the last terminator, unless it is padding. */
  function Remainder(s: string): seq<string> {
    if s != "" && !IsPadding(s) then [s] else []
  }

  lemma ChunksFree(s: string)
    requires Free(s, RECORD_TERMINATOR)
    ensures Chunks(s) == Remainder(s)
  {
    FindNone(s, RECORD_TERMINATOR);
  }

  /** The scan stands at idx; the piece it is in began at start. */
  ghost predicate Scanned(data: string, start: nat, idx: nat, chunks: seq<string>) {
    && start <= idx <= |data|
    && (forall j :: start <= j < idx ==> data[j] != RECORD_TERMINATOR)
    && SplitUpTo(data, start, chunks)
  }

  lemma ScanStart(data: string)
    ensures Scanned(data, 0, 0, [])
  {
    assert data[0..] == data;
  }

  lemma ScanEnd(data: string, start: nat, chunks: seq<string>)
    requires Scanned(data, start, |data|, chunks)
    ensures Chunks(data) == chunks + Remainder(data[start..])
  {
    AtEnd(data, start, chunks);
  }

  lemma ScanStep(data: string, start: nat, idx: nat, chunks: seq<string>)
    requires Scanned(data, start, idx, chunks) && idx < |data|
    ensures data[idx] == RECORD_TERMINATOR ==> Scanned(data, idx + 1, idx + 1, chunks + Lone(data[start..idx]))
    ensures data[idx] != RECORD_TERMINATOR ==> Scanned(data, start, idx + 1, chunks)
  {
    if data[idx] == RECORD_TERMINATOR {
      AtTerminator(data, start, idx, chunks);
    }
  }

  /** `_split_records`: one pass over the bytes. */
  method SplitRecords(data: string) returns (chunks: seq<string>)
    ensures chunks == Chunks(data)
  {
    chunks := [];
    var start := 0;
    ScanStart(data);
    for idx := 0 to |data|
      invariant Scanned(data, start, idx, chunks)
    {
      ScanStep(data, start, idx, chunks);
      if data[idx] == RECORD_TERMINATOR {
        chunks := chunks + Lone(data[start..idx]);
        start := idx + 1;
      }
    }
    var remainder := data[start..];
    ScanEnd(data, start, chunks);
    chunks := chunks + Remainder(remainder);
  }

  // ---------------------------------------------------------------- one record

  /** A Python slice: bounds past the end are cut off. */
  function Slice(s: string, lo: nat, hi: nat): string {
    if lo >= |s| || hi <= lo then "" else if hi >= |s| then s[lo..] else s[lo..hi]
  }

  /** `int(text)`; anything but digits is malformed. */
  function Number(s: string): Option<nat> {
    if s != "" && AllDigits(s) then Some(ValueOf(s)) else None
  }

  function WithoutTerminator(raw: string): string {
    if raw != "" && raw[|raw| - 1] == FIELD_TERMINATOR then raw[..|raw| - 1] else raw
  }

  /** Every non-empty piece after the first delimiter is a one-character code and a value. */
  function SubfieldsOf(pieces: seq<string>): seq<Subfield> {
    if pieces == [] then []
    else
      var last := pieces[|pieces| - 1];
      SubfieldsOf(pieces[..|pieces| - 1]) + (if last == "" then [] else [Subfield(last[..1], last[1..])])
  }

  function FieldOf(tag: string, raw: string): Field {
    var bytes := WithoutTerminator(raw);
    if "00" <= tag then Field(tag, " ", " ", bytes, None)
    else if |bytes| < 2 then Field(tag, " ", " ", "", Some([]))
    else Field(tag, bytes[..1], bytes[1..2], "", Some(SubfieldsOf(Split(bytes[2..], SUBFIELD_DELIMITER)[1..])))
  }

  /** The field a 12-byte directory entry points to; a malformed entry is skipped. */
  function EntryField(bytes: string, base: nat, entry: string): seq<Field>
    requires |entry| == 12
  {
    match (Number(entry[3..7]), Number(entry[7..12]))
    case (Some(length), Some(offset)) => [FieldOf(entry[..3], Slice(bytes, base + offset, base + offset + length))]
    case _ => []
  }

  /** The fields of a directory, which is whole entries. */
  function EntryFields(bytes: string, base: nat, directory: string): seq<Field> {
    if |directory| < 12 then []
    else
      var k := |directory| - 12;
      EntryFields(bytes, base, directory[..k]) + EntryField(bytes, base, directory[k..])
  }

  /** The base address and the directory of a chunk, or None where the parser raises. */
  function Frame(bytes: string): Option<(nat, string)> {
    if |bytes| < 24 || Number(bytes[12..17]).None? then None
    else
      var base := Number(bytes[12..17]).value;
      var directoryEnd := 24 + Find(bytes[24..], FIELD_TERMINATOR);
      if directoryEnd == |bytes| || directoryEnd > base then None
      else if (directoryEnd - 24) % 12 != 0 then None
      else Some((base, bytes[24..directoryEnd]))
  }

  /** What a chunk means, or None where the parser raises. */
  function Parsed(bytes: string): Option<Record> {
    match Frame(bytes)
    case None => None
    case Some((base, directory)) =>
      if |bytes| < 24 then None
      else Some(Record(bytes[..24], EntryFields(bytes, base, directory)))
  }

  method ParseSubfields(body: string) returns (subfields: seq<Subfield>)
    ensures subfields == SubfieldsOf(Split(body, SUBFIELD_DELIMITER)[1..])
  {
    subfields := [];
    var pieces := Split(body, SUBFIELD_DELIMITER)[1..];
    for k := 0 to |pieces|
      invariant subfields == SubfieldsOf(pieces[..k])
    {
      assert pieces[..k + 1][..k] == pieces[..k];
      var piece := pieces[k];
      if piece != "" {
        subfields := subfields + [Subfield(piece[..1], piece[1..])];
      }
    }
    assert pieces[..|pieces|] == pieces;
  }

  /** The body of the directory loop. */
  method ParseField(tag: string, raw: string) returns (field: Field)
    ensures field == FieldOf(tag, raw)
  {
    var bytes := raw;
    if bytes != "" && bytes[|bytes| - 1] == FIELD_TERMINATOR {
      bytes := bytes[..|bytes| - 1];
    }
    if StartsWith(tag, "00") {
      return Field(tag, " ", " ", bytes, None);
    }
    if |bytes| < 2 {
      return Field(tag, " ", " ", "", Some([]));
    }
    var subfields := ParseSubfields(bytes[2..]);
    field := Field(tag, bytes[..1], bytes[1..2], "", Some(subfields));
  }

  lemma EntryStep(bytes: string, base: nat, directory: string, i: nat)
    requires i + 12 <= |directory|
    ensures EntryFields(bytes, base, directory[..i + 12])
      == EntryFields(bytes, base, directory[..i]) + EntryField(bytes, base, directory[i..i + 12])
  {
    var upTo := directory[..i + 12];
    assert upTo[..i] == directory[..i] && upTo[i..] == directory[i..i + 12];
  }

  lemma EntryMeans(bytes: string, base: nat, entry: string, length: nat, offset: nat, raw: string)
    requires |entry| == 12 && Number(entry[3..7]) == Some(length) && Number(entry[7..12]) == Some(offset)
    requires Slice(bytes, base + offset, base + offset + length) == raw
    ensures EntryField(bytes, base, entry) == [FieldOf(entry[..3], raw)]
  {
  }

  /** One directory entry. */
  method ParseEntry(bytes: string, base: nat, entry: string) returns (fields: seq<Field>)
    requires |entry| == 12
    ensures fields == EntryField(bytes, base, entry)
  {
    var length, offset := Number(entry[3..7]), Number(entry[7..12]);
    if length.None? || offset.None? {
      return [];
    }
    var start := base + offset.value;
    var raw := Slice(bytes, start, start + length.value);
    EntryMeans(bytes, base, entry, length.value, offset.value, raw);
    var field := ParseField(entry[..3], raw);
    fields := [field];
  }

  lemma WholeEntry(i: nat, length: nat)
    requires i < length && i % 12 == 0 && length % 12 == 0
    ensures i + 12 <= length && (i + 12) % 12 == 0
  {
  }

  /** The directory loop. */
  method ParseDirectory(bytes: string, base: nat, directory: string) returns (fields: seq<Field>)
    requires |directory| % 12 == 0
    ensures fields == EntryFields(bytes, base, directory)
  {
    fields := [];
    var i := 0;
    while i < |directory|
      invariant 0 <= i <= |directory| && i % 12 == 0
      invariant fields == EntryFields(bytes, base, directory[..i])
    {
      WholeEntry(i, |directory|);
      EntryStep(bytes, base, directory, i);
      var parsed := ParseEntry(bytes, base, directory[i..i + 12]);
      fields := fields + parsed;
      i := i + 12;
    }
    assert directory[..i] == directory;
  }

  /** The checks before the directory loop of `parse_iso2709_record`. */
  method ReadFrame(bytes: string) returns (frame: Option<(nat, string)>)
    ensures frame == Frame(bytes)
    ensures frame.Some? ==> |bytes| >= 24 && |frame.value.1| % 12 == 0
  {
    if |bytes| < 24 {
      return None;
    }
    var leader := bytes[..24];
    assert leader[12..17] == bytes[12..17];
    var baseAddress := Number(leader[12..17]);
    if baseAddress.None? {
      return None;
    }
    var directoryEnd := 24 + Find(bytes[24..], FIELD_TERMINATOR);
    if directoryEnd == |bytes| || directoryEnd > baseAddress.value {
      return None;
    }
    var directory := bytes[24..directoryEnd];
    if |directory| % 12 != 0 {
      return None;
    }
    frame := Some((baseAddress.value, directory));
  }

  /** `parse_iso2709_record` */
  method ParseRecord(bytes: string) returns (r: Result<Record>)
    ensures r == match Parsed(bytes) { case Some(record) => Ok(record) case None => Err("backend_unavailable") }
  {
    var frame := ReadFrame(bytes);
    if frame.None? {
      return Err("backend_unavailable");
    }
    var (baseAddress, directory) := frame.value;
    var fields := ParseDirectory(bytes, baseAddress, directory);
    r := Ok(Record(bytes[..24], fields));
  }

  function ParseChunks(chunks: seq<string>): seq<Record> {
    if chunks == [] then []
    else
      ParseChunks(chunks[..|chunks| - 1])
      + (match Parsed(chunks[|chunks| - 1]) { case Some(record) => [record] case None => [] })
  }

  /** The records of a file. */
  function Records(data: string): seq<Record> {
    ParseChunks(Chunks(data))
  }

  /** `iter_iso2709_records`: a chunk that does not parse is logged and passed over. */
  method IterRecords(data: string) returns (records: seq<Record>)
    ensures records == Records(data)
  {
    records := [];
    var chunks := SplitRecords(data);
    for k := 0 to |chunks|
      invariant records == ParseChunks(chunks[..k])
    {
      assert chunks[..k + 1][..k] == chunks[..k];
      var parsed := ParseRecord(chunks[k]);
      if parsed.Ok? {
        records := records + [parsed.value];
      }
    }
    assert chunks[..|chunks|] == chunks;
  }

  // ---------------------------------------------------------------- lookups

  /** Subfield j of field i has the tag and the code, and is not empty. */
  predicate IsSubfield(fields: seq<Field>, tag: string, code: string, i: int, j: int) {
    && 0 <= i < |fields| && fields[i].tag == tag && fields[i].subfields.Some?
    && 0 <= j < |fields[i].subfields.value|
    && fields[i].subfields.value[j].code == code && fields[i].subfields.value[j].value != ""
  }

  /** No subfield before subfield j of field i is one. */
  ghost predicate NoneBefore(fields: seq<Field>, tag: string, code: string, i: int, j: int) {
    forall x, y :: IsSubfield(fields, tag, code, x, y) ==> !(x < i || (x == i && y < j))
  }

  /** `get_subfield`: the first non-empty one, field by field. */
  method GetSubfield(record: Record, tag: string, code: string) returns (value: string)
    ensures (exists i, j :: (
               && IsSubfield(record.fields, tag, code, i, j) && value == record.fields[i].subfields.value[j].value
               && NoneBefore(record.fields, tag, code, i, j)))
      || (value == "" && forall i, j :: !IsSubfield(record.fields, tag, code, i, j))
  {
    for i := 0 to |record.fields|
      invariant NoneBefore(record.fields, tag, code, i, 0)
    {
      var field := record.fields[i];
      if field.tag == tag && field.subfields.Some? {
        for j := 0 to |field.subfields.value|
          invariant NoneBefore(record.fields, tag, code, i, j)
        {
          if field.subfields.value[j].code == code && field.subfields.value[j].value != "" {
            assert IsSubfield(record.fields, tag, code, i, j);
            return field.subfields.value[j].value;
          }
        }
      }
    }
    value := "";
  }

  /** `get_control`: the value of the first field of the tag that carries no subfields. */
  method GetControl(record: Record, tag: string) returns (value: string)
    ensures (exists k :: (
               && 0 <= k < |record.fields| && IsControlOf(record.fields[k], tag) && record.fields[k].value == value
               && forall j :: 0 <= j < k ==> !IsControlOf(record.fields[j], tag)))
      || (value == "" && forall j :: 0 <= j < |record.fields| ==> !IsControlOf(record.fields[j], tag))
  {
    for k := 0 to |record.fields|
      invariant forall j :: 0 <= j < k ==> !IsControlOf(record.fields[j], tag)
    {
      if IsControlOf(record.fields[k], tag) {
        return record.fields[k].value;
      }
    }
    value := "";
  }

  predicate IsControlOf(field: Field, tag: string) {
    field.tag == tag && (field.subfields.None? || field.subfields.value == [])
  }
}
