/** Reading the metadata record of a module from the note segments of an ELF image. Field
    positions are those of the ELF Header and Program Header in chapters 4 and 5, and notes
    those of the Note Section in chapter 5, of the System V gABI. */
module AotNotes {
  import opened Text

  const NOTE_NAME: Bytes := [0x51, 0x6F, 0x72, 0x65, 0]
  const NOTE_TYPE := 0x494D4151
  const PT_NOTE := 4
  const PN_XNUM := 0xFFFF
  const MAGIC: Bytes := [0x7F, 0x45, 0x4C, 0x46]

  // ---- Little-endian numbers ----

  function FromLE(b: Bytes): nat {
    if b == [] then 0 else b[0] as nat + 256 * FromLE(b[1..])
  }

  function ToLE(v: nat, n: nat): (b: Bytes)
    ensures |b| == n
  {
    if n == 0 then [] else [(v % 256) as byte] + ToLE(v / 256, n - 1)
  }

  function Pow256(n: nat): nat {
    if n == 0 then 1 else 256 * Pow256(n - 1)
  }

  lemma {:induction false} LERoundTrip(v: nat, n: nat)
    requires v < Pow256(n)
    ensures FromLE(ToLE(v, n)) == v
  {
    if n > 0 {
      assert v / 256 < Pow256(n - 1);
      LERoundTrip(v / 256, n - 1);
      assert ToLE(v, n)[1..] == ToLE(v / 256, n - 1);
    }
  }

  /** The unsigned number stored in `n` bytes at an offset. */
  function Uint(data: Bytes, offset: nat, n: nat): nat
    requires offset + n <= |data|
  {
    FromLE(data[offset..offset + n])
  }

  /** A number is stored in `n` bytes at an offset. */
  predicate FieldAt(data: Bytes, offset: nat, n: nat, v: nat) {
    offset + n <= |data| && v < Pow256(n) && data[offset..offset + n] == ToLE(v, n)
  }

  lemma FieldReads(data: Bytes, offset: nat, n: nat, v: nat)
    requires FieldAt(data, offset, n, v)
    ensures Uint(data, offset, n) == v
  {
    LERoundTrip(v, n);
  }

  // ---- Alignment ----

  predicate Aligned(value: nat, alignment: nat) {
    if alignment == 8 then value % 8 == 0 else value % 4 == 0
  }

  /** Rounds up to a multiple of the alignment, as adding one less and clearing the low bits does. */
  function Align(value: nat, alignment: nat): (r: nat)
    requires alignment == 4 || alignment == 8
    ensures Aligned(r, alignment) && value <= r < value + alignment
  {
    if alignment == 8 then (value + 7) / 8 * 8 else (value + 3) / 4 * 4
  }

  /** It is the least multiple of the alignment that is not below the value. */
  lemma AlignIsLeast(value: nat, alignment: nat, m: nat)
    requires alignment == 4 || alignment == 8
    requires Aligned(m, alignment) && value <= m
    ensures Align(value, alignment) <= m
  {
    var r := Align(value, alignment);
    if alignment == 8 { assert r % 8 == 0 && m % 8 == 0; } else { assert r % 4 == 0 && m % 4 == 0; }
  }

  lemma AlignShift(base: nat, value: nat, alignment: nat)
    requires (alignment == 4 || alignment == 8) && Aligned(base, alignment)
    ensures Align(base + value, alignment) == base + Align(value, alignment)
  {
    if alignment == 8 { Shift8(base, value); } else { Shift4(base, value); }
  }

  lemma Shift8(base: nat, value: nat)
    requires base % 8 == 0
    ensures (base + value + 7) / 8 * 8 == base + (value + 7) / 8 * 8
  {
  }

  lemma Shift4(base: nat, value: nat)
    requires base % 4 == 0
    ensures (base + value + 3) / 4 * 4 == base + (value + 3) / 4 * 4
  {
  }

  lemma AlignedSum(a: nat, b: nat, alignment: nat)
    requires Aligned(a, alignment) && Aligned(b, alignment)
    ensures Aligned(a + b, alignment)
  {
    if alignment == 8 { assert a % 8 == 0 && b % 8 == 0; } else { assert a % 4 == 0 && b % 4 == 0; }
  }

  // ---- The note loop ----

  function Min(a: nat, b: nat): nat { if a <= b then a else b }

  /** What one turn of the loop finds, and where the next one starts. */
  datatype Turn = Stop | Go(found: seq<Bytes>, next: nat)

  function NoteAt(segment: Bytes, alignment: nat, position: nat): (t: Turn)
    requires (alignment == 4 || alignment == 8) && position + 12 <= |segment|
    ensures t.Go? ==> position + 12 <= t.next <= |segment|
  {
    var nameSize, descSize := Uint(segment, position, 4), Uint(segment, position + 4, 4);
    var name := position + 12;
    var desc := Align(name + nameSize, alignment);
    if desc + descSize > |segment| then Stop
    else
      Go(if Uint(segment, position + 8, 4) == NOTE_TYPE && segment[name..name + nameSize] == NOTE_NAME
         then [segment[desc..desc + descSize]] else [],
         Min(Align(desc + descSize, alignment), |segment|))
  }

  /** The records found from a position on. The position grows by at least a note header. */
  function Records(segment: Bytes, alignment: nat, position: nat): seq<Bytes>
    requires (alignment == 4 || alignment == 8) && position <= |segment|
    decreases |segment| - position
  {
    if |segment| - position < 12 then []
    else
      match NoteAt(segment, alignment, position)
      case Stop => []
      case Go(found, next) => found + Records(segment, alignment, next)
  }

  lemma RecordsGo(segment: Bytes, alignment: nat, position: nat)
    requires (alignment == 4 || alignment == 8) && position + 12 <= |segment|
    ensures var t := NoteAt(segment, alignment, position);
            Records(segment, alignment, position) ==
            if t.Go? then t.found + Records(segment, alignment, t.next) else []
  {
  }

  lemma RecordsEnd(segment: Bytes, alignment: nat)
    requires alignment == 4 || alignment == 8
    ensures Records(segment, alignment, |segment|) == []
  {
  }

  /** The loop over the notes of a segment. */
  method ReadNotes(segment: Bytes, alignment: nat) returns (records: seq<Bytes>)
    requires alignment == 4 || alignment == 8
    ensures records == Records(segment, alignment, 0)
  {
    records := [];
    var position := 0;
    while |segment| - position >= 12
      invariant position <= |segment|
      invariant records + Records(segment, alignment, position) == Records(segment, alignment, 0)
      decreases |segment| - position
    {
      RecordsGo(segment, alignment, position);
      var turn := ReadNote(segment, alignment, position);
      if turn.Stop? {
        break;
      }
      Associative(records, turn.found, Records(segment, alignment, turn.next));
      records := records + turn.found;
      position := turn.next;
    }
    Associative(records, [], []);
  }

  /** One turn of it: the notes of other owners are not checked. */
  method ReadNote(segment: Bytes, alignment: nat, position: nat) returns (t: Turn)
    requires (alignment == 4 || alignment == 8) && position + 12 <= |segment|
    ensures t == NoteAt(segment, alignment, position)
  {
    var nameSize, descSize, noteType := Uint(segment, position, 4), Uint(segment, position + 4, 4),
        Uint(segment, position + 8, 4);
    var name := position + 12;
    var desc := Align(name + nameSize, alignment);
    if desc + descSize > |segment| {
      return Stop;
    }
    var found := [];
    if noteType == NOTE_TYPE && segment[name..name + nameSize] == NOTE_NAME {
      found := [segment[desc..desc + descSize]];
    }
    return Go(found, Min(Align(desc + descSize, alignment), |segment|));
  }

  lemma Associative(a: seq<Bytes>, b: seq<Bytes>, c: seq<Bytes>)
    ensures (a + b) + c == a + (b + c) && a + [] == a
  {
  }

  // ---- Writing notes ----

  datatype Note = Note(name: Bytes, kind: nat, desc: Bytes)

  predicate Encodable(n: Note) {
    |n.name| < Pow256(4) && |n.desc| < Pow256(4) && n.kind < Pow256(4)
  }

  predicate AllEncodable(ns: seq<Note>) {
    forall n <- ns :: Encodable(n)
  }

  function Zeros(n: nat): Bytes { seq(n, _ => 0) }

  function PadTo(size: nat, alignment: nat): Bytes
    requires alignment == 4 || alignment == 8
  {
    Zeros(Align(size, alignment) - size)
  }

  function NoteHead(n: Note, alignment: nat): Bytes
    requires alignment == 4 || alignment == 8
  {
    ToLE(|n.name|, 4) + ToLE(|n.desc|, 4) + ToLE(n.kind, 4) + n.name + PadTo(12 + |n.name|, alignment)
  }

  /** A note with its description padded by `pad` bytes. */
  function EncodeNote(n: Note, alignment: nat, pad: nat): Bytes
    requires alignment == 4 || alignment == 8
  {
    NoteHead(n, alignment) + n.desc + Zeros(pad)
  }

  function FullPad(n: Note, alignment: nat): nat
    requires alignment == 4 || alignment == 8
  {
    Align(|n.desc|, alignment) - |n.desc|
  }

  /** Notes one after the other, each padded to the alignment; of the last one's padding any
      part may be missing. */
  function EncodeNotes(ns: seq<Note>, alignment: nat, lastPad: nat): Bytes
    requires alignment == 4 || alignment == 8
  {
    if ns == [] then []
    else if |ns| == 1 then EncodeNote(ns[0], alignment, Min(lastPad, FullPad(ns[0], alignment)))
    else EncodeNote(ns[0], alignment, FullPad(ns[0], alignment)) + EncodeNotes(ns[1..], alignment, lastPad)
  }

  /** The descriptions of the notes with the owner and type looked for. */
  function Wanted(ns: seq<Note>): seq<Bytes> {
    if ns == [] then []
    else (if ns[0].kind == NOTE_TYPE && ns[0].name == NOTE_NAME then [ns[0].desc] else []) + Wanted(ns[1..])
  }

  /** A turn of the loop at a place where the fields of a note are. */
  lemma NoteAtFields(segment: Bytes, alignment: nat, position: nat, n: Note, desc: nat)
    requires (alignment == 4 || alignment == 8) && position + 12 <= desc && desc + |n.desc| <= |segment|
    requires desc == Align(position + 12 + |n.name|, alignment)
    requires Uint(segment, position, 4) == |n.name| && Uint(segment, position + 4, 4) == |n.desc|
    requires Uint(segment, position + 8, 4) == n.kind
    requires segment[position + 12..position + 12 + |n.name|] == n.name
    requires segment[desc..desc + |n.desc|] == n.desc
    ensures NoteAt(segment, alignment, position) == Go(Wanted([n]), Min(Align(desc + |n.desc|, alignment), |segment|))
  {
    assert Wanted([n]) == if n.kind == NOTE_TYPE && n.name == NOTE_NAME then [n.desc] else [];
  }

  /** The bytes of a note, of whose padding a part may be missing at the end of a segment. */
  predicate IsNote(note: Bytes, n: Note, size: nat, alignment: nat)
    requires alignment == 4 || alignment == 8
  {
    && HasFields(note, n, size) && size == Align(12 + |n.name|, alignment)
    && |note| <= size + Align(|n.desc|, alignment)
  }

  lemma NextAfterNote(p: nat, n: Note, size: nat, alignment: nat)
    requires (alignment == 4 || alignment == 8) && Aligned(p, alignment) && size == Align(12 + |n.name|, alignment)
    ensures Align(p + 12 + |n.name|, alignment) == p + size
    ensures Align(p + size + |n.desc|, alignment) == p + size + Align(|n.desc|, alignment)
  {
    AlignShift(p, 12 + |n.name|, alignment);
    AlignedSum(p, size, alignment);
    AlignShift(p + size, |n.desc|, alignment);
  }

  /** The fields of a note can be read at `p` of a segment. */
  predicate FieldsIn(segment: Bytes, p: nat, n: Note, size: nat) {
    && 12 + |n.name| <= size && p + size + |n.desc| <= |segment|
    && Uint(segment, p, 4) == |n.name| && Uint(segment, p + 4, 4) == |n.desc| && Uint(segment, p + 8, 4) == n.kind
    && segment[p + 12..p + 12 + |n.name|] == n.name
    && segment[p + size..p + size + |n.desc|] == n.desc
  }

  /** One note, read where it was written. */
  lemma ReadsNote(segment: Bytes, p: nat, n: Note, size: nat, alignment: nat, next: nat)
    requires (alignment == 4 || alignment == 8) && Aligned(p, alignment) && FieldsIn(segment, p, n, size)
    requires size == Align(12 + |n.name|, alignment)
    requires next == Min(p + size + Align(|n.desc|, alignment), |segment|)
    ensures p + 12 <= |segment| && NoteAt(segment, alignment, p) == Go(Wanted([n]), next)
  {
    NextAfterNote(p, n, size, alignment);
    NoteAtFields(segment, alignment, p, n, p + size);
  }

  /** The bytes of a note by themselves. */
  predicate HasFields(note: Bytes, n: Note, size: nat) {
    && 12 + |n.name| <= size && size + |n.desc| <= |note|
    && note[..4] == ToLE(|n.name|, 4) && note[4..8] == ToLE(|n.desc|, 4) && note[8..12] == ToLE(n.kind, 4)
    && note[12..12 + |n.name|] == n.name && note[size..size + |n.desc|] == n.desc
  }

  lemma EncodedFields(n: Note, alignment: nat, pad: nat)
    requires alignment == 4 || alignment == 8
    ensures var size := Align(12 + |n.name|, alignment);
            && |EncodeNote(n, alignment, pad)| == size + |n.desc| + pad
            && HasFields(EncodeNote(n, alignment, pad), n, size)
  {
    Concatenated(ToLE(|n.name|, 4), ToLE(|n.desc|, 4), ToLE(n.kind, 4), n.name, PadTo(12 + |n.name|, alignment),
        n.desc, Zeros(pad));
  }

  lemma Concatenated(a: Bytes, b: Bytes, c: Bytes, d: Bytes, e: Bytes, f: Bytes, g: Bytes)
    requires |a| == |b| == |c| == 4
    ensures var w := a + b + c + d + e + f + g;
            && w[..4] == a && w[4..8] == b && w[8..12] == c && w[12..12 + |d|] == d
            && w[12 + |d| + |e|..12 + |d| + |e| + |f|] == f
  {
  }

  lemma NoteFields(before: Bytes, note: Bytes, after: Bytes, n: Note, size: nat)
    requires Encodable(n) && HasFields(note, n, size)
    ensures FieldsIn(before + note + after, |before|, n, size)
  {
    SliceShift(before, note, after, 0, 4);
    SliceShift(before, note, after, 4, 8);
    SliceShift(before, note, after, 8, 12);
    SliceShift(before, note, after, 12, 12 + |n.name|);
    SliceShift(before, note, after, size, size + |n.desc|);
    LERoundTrip(|n.name|, 4);
    LERoundTrip(|n.desc|, 4);
    LERoundTrip(n.kind, 4);
  }

  lemma SliceShift(before: Bytes, note: Bytes, after: Bytes, i: nat, j: nat)
    requires i <= j <= |note|
    ensures (before + note + after)[|before| + i..|before| + j] == note[i..j]
  {
  }

  lemma RecordsAfter(segment: Bytes, alignment: nat, position: nat, found: seq<Bytes>, next: nat)
    requires (alignment == 4 || alignment == 8) && position + 12 <= |segment|
    requires NoteAt(segment, alignment, position) == Go(found, next)
    ensures Records(segment, alignment, position) == found + Records(segment, alignment, next)
  {
  }

  lemma EncodeIsNote(n: Note, alignment: nat, pad: nat)
    requires (alignment == 4 || alignment == 8) && pad <= FullPad(n, alignment)
    ensures var note, size := EncodeNote(n, alignment, pad), Align(12 + |n.name|, alignment);
            && IsNote(note, n, size, alignment)
            && (pad == FullPad(n, alignment) <==> |note| == size + Align(|n.desc|, alignment))
            && (pad == FullPad(n, alignment) ==> Aligned(|note|, alignment))
  {
    EncodedFields(n, alignment, pad);
    AlignedSum(Align(12 + |n.name|, alignment), Align(|n.desc|, alignment), alignment);
  }

  lemma EncodeFirst(before: Bytes, ns: seq<Note>, alignment: nat, lastPad: nat) returns (first: Bytes, size: nat)
    requires (alignment == 4 || alignment == 8) && ns != []
    ensures IsNote(first, ns[0], size, alignment)
    ensures EncodeNotes(ns, alignment, lastPad) == first + EncodeNotes(ns[1..], alignment, lastPad)
    ensures |ns| > 1 ==> |first| == size + Align(|ns[0].desc|, alignment) && Aligned(|first|, alignment)
  {
    var full := FullPad(ns[0], alignment);
    var pad := if |ns| == 1 then Min(lastPad, full) else full;
    EncodeIsNote(ns[0], alignment, pad);
    first, size := EncodeNote(ns[0], alignment, pad), Align(12 + |ns[0].name|, alignment);
    assert |ns| == 1 ==> EncodeNotes(ns[1..], alignment, lastPad) == [] && first + [] == first;
  }

  /** The loop undoes the encoder: it returns exactly the wanted descriptions, in order,
      whatever notes of others lie between. */
  lemma {:induction false} LoopUndoesEncoder(before: Bytes, ns: seq<Note>, alignment: nat, lastPad: nat)
    requires (alignment == 4 || alignment == 8) && Aligned(|before|, alignment)
    requires AllEncodable(ns)
    ensures Records(before + EncodeNotes(ns, alignment, lastPad), alignment, |before|) == Wanted(ns)
    decreases |ns|
  {
    if ns == [] {
      RecordsEnd(before, alignment);
      assert before + [] == before;
    } else {
      var first, size := EncodeFirst(before, ns, alignment, lastPad);
      LoopStep(before, first, ns, alignment, lastPad, size) by {
        if |ns| > 1 {
          AlignedSum(|before|, |first|, alignment);
          LoopUndoesEncoder(before + first, ns[1..], alignment, lastPad);
        } else {
          RecordsEnd(before + first, alignment);
          assert (before + first) + [] == before + first;
        }
      }
    }
  }

  lemma LoopStep(before: Bytes, first: Bytes, ns: seq<Note>, alignment: nat, lastPad: nat, size: nat)
    requires (alignment == 4 || alignment == 8) && Aligned(|before|, alignment) && ns != [] && Encodable(ns[0])
    requires IsNote(first, ns[0], size, alignment)
    requires EncodeNotes(ns, alignment, lastPad) == first + EncodeNotes(ns[1..], alignment, lastPad)
    requires if |ns| > 1 then |first| == size + Align(|ns[0].desc|, alignment)
             else EncodeNotes(ns[1..], alignment, lastPad) == []
    requires Records(before + first + EncodeNotes(ns[1..], alignment, lastPad), alignment, |before + first|)
             == Wanted(ns[1..])
    ensures Records(before + EncodeNotes(ns, alignment, lastPad), alignment, |before|) == Wanted(ns)
  {
    var rest := EncodeNotes(ns[1..], alignment, lastPad);
    var segment := before + first + rest;
    JoinBytes(before, first, rest);
    NoteFields(before, first, rest, ns[0], size);
    ReadsNote(segment, |before|, ns[0], size, alignment, |before + first|);
    WantedFirst(ns);
    StepTo(segment, alignment, |before|, Wanted([ns[0]]), |before + first|, Wanted(ns[1..]), Wanted(ns));
  }

  lemma JoinBytes(a: Bytes, b: Bytes, c: Bytes)
    ensures a + (b + c) == a + b + c
  {
  }

  lemma StepTo(segment: Bytes, alignment: nat, position: nat, found: seq<Bytes>, next: nat, rest: seq<Bytes>,
      all: seq<Bytes>)
    requires (alignment == 4 || alignment == 8) && position + 12 <= next <= |segment|
    requires NoteAt(segment, alignment, position) == Go(found, next)
    requires Records(segment, alignment, next) == rest && all == found + rest
    ensures Records(segment, alignment, position) == all
  {
    RecordsAfter(segment, alignment, position, found, next);
  }

  lemma WantedFirst(ns: seq<Note>)
    requires ns != []
    ensures Wanted(ns) == Wanted([ns[0]]) + Wanted(ns[1..])
  {
  }

  /** Too short for a note, or a note whose description would end behind it. */
  predicate CutOff(tail: Bytes, alignment: nat)
    requires alignment == 4 || alignment == 8
  {
    |tail| < 12 || Align(12 + FromLE(tail[..4]), alignment) + FromLE(tail[4..8]) > |tail|
  }

  lemma StopsAtCutOff(before: Bytes, tail: Bytes, alignment: nat)
    requires (alignment == 4 || alignment == 8) && Aligned(|before|, alignment) && CutOff(tail, alignment)
    ensures Records(before + tail, alignment, |before|) == []
  {
    if |tail| >= 12 {
      CutNoteStops(before, tail, before + tail, FromLE(tail[..4]), FromLE(tail[4..8]), alignment);
    }
  }

  lemma CutNoteStops(before: Bytes, tail: Bytes, segment: Bytes, nameSize: nat, descSize: nat, alignment: nat)
    requires (alignment == 4 || alignment == 8) && Aligned(|before|, alignment) && segment == before + tail
    requires |tail| >= 12 && nameSize == FromLE(tail[..4]) && descSize == FromLE(tail[4..8])
    requires Align(12 + nameSize, alignment) + descSize > |tail|
    ensures Records(segment, alignment, |before|) == []
  {
    TailSizes(before, tail, segment, nameSize, descSize);
    EndsBehind(|before|, nameSize, descSize, |tail|, alignment);
    NoteStops(segment, alignment, |before|, nameSize, descSize);
  }

  lemma EndsBehind(p: nat, nameSize: nat, descSize: nat, size: nat, alignment: nat)
    requires (alignment == 4 || alignment == 8) && Aligned(p, alignment)
    requires Align(12 + nameSize, alignment) + descSize > size
    ensures Align(p + 12 + nameSize, alignment) + descSize > p + size
  {
    AlignShift(p, 12 + nameSize, alignment);
  }

  lemma TailSizes(before: Bytes, tail: Bytes, segment: Bytes, nameSize: nat, descSize: nat)
    requires |tail| >= 12 && nameSize == FromLE(tail[..4]) && descSize == FromLE(tail[4..8])
    requires segment == before + tail
    ensures Uint(segment, |before|, 4) == nameSize && Uint(segment, |before| + 4, 4) == descSize
  {
    assert segment[|before|..|before| + 4] == tail[..4] && segment[|before| + 4..|before| + 8] == tail[4..8];
  }

  lemma NoteStops(segment: Bytes, alignment: nat, position: nat, nameSize: nat, descSize: nat)
    requires (alignment == 4 || alignment == 8) && position + 12 <= |segment|
    requires Uint(segment, position, 4) == nameSize && Uint(segment, position + 4, 4) == descSize
    requires Align(position + 12 + nameSize, alignment) + descSize > |segment|
    ensures Records(segment, alignment, position) == []
  {
  }

  /** Notes that are fully padded. */
  function Padded(ns: seq<Note>, alignment: nat): Bytes
    requires alignment == 4 || alignment == 8
  {
    if ns == [] then [] else EncodeNote(ns[0], alignment, FullPad(ns[0], alignment)) + Padded(ns[1..], alignment)
  }

  /** What is cut off behind the last note is ignored. */
  lemma {:induction false} TailIgnored(before: Bytes, ns: seq<Note>, alignment: nat, tail: Bytes)
    requires (alignment == 4 || alignment == 8) && Aligned(|before|, alignment)
    requires AllEncodable(ns) && CutOff(tail, alignment)
    ensures Records(before + (Padded(ns, alignment) + tail), alignment, |before|) == Wanted(ns)
    decreases |ns|
  {
    if ns == [] {
      StopsAtCutOff(before, tail, alignment);
      assert Padded(ns, alignment) + tail == tail;
    } else {
      var first, rest := EncodeNote(ns[0], alignment, FullPad(ns[0], alignment)), Padded(ns[1..], alignment) + tail;
      EncodeIsNote(ns[0], alignment, FullPad(ns[0], alignment));
      AlignedSum(|before|, |first|, alignment);
      TailIgnored(before + first, ns[1..], alignment, tail);
      JoinBytes(first, Padded(ns[1..], alignment), tail);
      StepOver(before, first, ns, alignment, rest);
    }
  }

  lemma StepOver(before: Bytes, first: Bytes, ns: seq<Note>, alignment: nat, rest: Bytes)
    requires (alignment == 4 || alignment == 8) && Aligned(|before|, alignment) && ns != [] && Encodable(ns[0])
    requires IsNote(first, ns[0], Align(12 + |ns[0].name|, alignment), alignment)
    requires |first| == Align(12 + |ns[0].name|, alignment) + Align(|ns[0].desc|, alignment)
    requires Records(before + first + rest, alignment, |before + first|) == Wanted(ns[1..])
    ensures Records(before + (first + rest), alignment, |before|) == Wanted(ns)
  {
    var segment, size := before + first + rest, Align(12 + |ns[0].name|, alignment);
    JoinBytes(before, first, rest);
    NoteFields(before, first, rest, ns[0], size);
    ReadsNote(segment, |before|, ns[0], size, alignment, |before + first|);
    WantedFirst(ns);
    StepTo(segment, alignment, |before|, Wanted([ns[0]]), |before + first|, Wanted(ns[1..]), Wanted(ns));
  }

  // ---- The image ----

  /** A record, empty bytes for none, or the ValueError. */
  datatype Parsed = Record(data: Bytes) | ValueError

  /** Where a class of images keeps its fields, and how wide its offsets are. */
  datatype Format = Format(headerSize: nat, width: nat, phoff: nat, shoff: nat, phentsize: nat, phnum: nat, info: nat,
                           entrySize: nat, offset: nat, size: nat, align: nat)

  predicate Fits(f: Format) {
    && f.phoff + f.width <= f.headerSize && f.shoff + f.width <= f.headerSize
    && f.phentsize + 2 <= f.headerSize && f.phnum + 2 <= f.headerSize
    && 4 <= f.entrySize && f.offset + f.width <= f.entrySize
    && f.size + f.width <= f.entrySize && f.align + f.width <= f.entrySize
  }

  function FormatOf(elf64: bool): (f: Format)
    ensures Fits(f)
  {
    if elf64 then Format(64, 8, 32, 40, 54, 56, 44, 56, 8, 32, 48)
    else Format(52, 4, 28, 32, 42, 44, 28, 32, 4, 16, 28)
  }

  predicate IsElf(data: Bytes) {
    |data| >= 16 && data[..4] == MAGIC && data[5] == 1 && (data[4] == 1 || data[4] == 2)
  }

  /** The fields of a program header that matter. */
  datatype Phdr = Phdr(kind: nat, offset: nat, size: nat, align: nat)

  function PhdrAt(data: Bytes, f: Format, entry: nat): Phdr
    requires Fits(f) && entry + f.entrySize <= |data|
  {
    Phdr(Uint(data, entry, 4), Uint(data, entry + f.offset, f.width),
         Uint(data, entry + f.size, f.width), Uint(data, entry + f.align, f.width))
  }

  /** The size of the first `n` entries of a table. */
  function Rows(phentsize: nat, n: nat): nat {
    if n == 0 then 0 else Rows(phentsize, n - 1) + phentsize
  }

  lemma {:induction false} RowsAreProduct(phentsize: nat, n: nat)
    ensures Rows(phentsize, n) == n * phentsize
  {
    if n > 0 {
      RowsAreProduct(phentsize, n - 1);
      assert n * phentsize == (n - 1) * phentsize + phentsize;
    }
  }

  lemma {:induction false} RowsGrow(phentsize: nat, m: nat, n: nat)
    requires m <= n
    ensures Rows(phentsize, m) <= Rows(phentsize, n)
    ensures m < n ==> Rows(phentsize, m) + phentsize <= Rows(phentsize, n)
  {
    if m < n {
      RowsGrow(phentsize, m, n - 1);
    }
  }

  /** The table of the program headers. */
  function Table(data: Bytes, f: Format, phoff: nat, phentsize: nat, n: nat): (t: seq<Phdr>)
    requires Fits(f) && phentsize >= f.entrySize && phoff + Rows(phentsize, n) <= |data|
    ensures |t| == n
  {
    if n == 0 then []
    else Table(data, f, phoff, phentsize, n - 1) + [PhdrAt(data, f, phoff + Rows(phentsize, n - 1))]
  }

  function NoteAlignment(p: Phdr): (a: nat)
    ensures a == 4 || a == 8
  {
    if p.align == 8 then 8 else 4
  }

  /** The records of one segment; None when it is cut off. */
  function SegmentRecords(data: Bytes, p: Phdr): Option<seq<Bytes>> {
    if p.kind != PT_NOTE then Some([])
    else if p.offset + p.size > |data| then None
    else Some(Records(data[p.offset..p.offset + p.size], NoteAlignment(p), 0))
  }

  /** The records of all segments in order; None when a note segment is cut off. */
  function TableRecords(data: Bytes, table: seq<Phdr>): Option<seq<Bytes>> {
    if table == [] then Some([])
    else Append(TableRecords(data, table[..|table| - 1]), SegmentRecords(data, table[|table| - 1]))
  }

  function Append(a: Option<seq<Bytes>>, b: Option<seq<Bytes>>): Option<seq<Bytes>> {
    if a.Some? && b.Some? then Some(a.value + b.value) else None
  }

  /** How many program headers there are: in the header, or, for many, in the first section
      header; None when that is cut off. */
  function HeaderCount(data: Bytes, f: Format): Option<nat>
    requires Fits(f) && |data| >= f.headerSize
  {
    var phnum := Uint(data, f.phnum, 2);
    if phnum != PN_XNUM then Some(phnum)
    else
      var info := Uint(data, f.shoff, f.width) + f.info;
      if info + 4 > |data| then None else Some(Uint(data, info, 4))
  }

  function OneRecord(records: seq<Bytes>): Parsed {
    if |records| > 1 then ValueError else if |records| == 1 then Record(records[0]) else Record([])
  }

  /** The outcome for a table of `n` entries. */
  function ParseTable(data: Bytes, f: Format, phoff: nat, phentsize: nat, n: nat): Parsed
    requires Fits(f)
  {
    if phentsize < f.entrySize || phoff + Rows(phentsize, n) > |data| then ValueError
    else
      match TableRecords(data, Table(data, f, phoff, phentsize, n))
      case None => ValueError
      case Some(records) => OneRecord(records)
  }

  function ParseHeader(data: Bytes, f: Format): Parsed
    requires Fits(f)
  {
    if |data| < f.headerSize then ValueError
    else if Uint(data, f.phnum, 2) == 0 then Record([])
    else
      match HeaderCount(data, f)
      case None => ValueError
      case Some(n) => ParseTable(data, f, Uint(data, f.phoff, f.width), Uint(data, f.phentsize, 2), n)
  }

  function Parse(data: Bytes): Parsed {
    if IsElf(data) then ParseHeader(data, FormatOf(data[4] == 2)) else Record([])
  }

  /** The parser. Every read is in bounds, and it ends with a record, none, or a ValueError. */
  method ReadModuleInfo(data: Bytes) returns (r: Parsed)
    ensures r == Parse(data)
  {
    if |data| < 16 || data[..4] != MAGIC || data[5] != 1 || (data[4] != 1 && data[4] != 2) {
      return Record([]);
    }
    r := ReadHeader(data, FormatOf(data[4] == 2));
  }

  method ReadHeader(data: Bytes, f: Format) returns (r: Parsed)
    requires Fits(f)
    ensures r == ParseHeader(data, f)
  {
    if |data| < f.headerSize {
      return ValueError;
    }
    var phoff, shoff := Uint(data, f.phoff, f.width), Uint(data, f.shoff, f.width);
    var phentsize, phnum := Uint(data, f.phentsize, 2), Uint(data, f.phnum, 2);
    if phnum == 0 {
      return Record([]);
    }
    if phnum == PN_XNUM {
      // the number of program headers is in the first section header
      var infoOffset := shoff + f.info;
      if infoOffset + 4 > |data| {
        return ValueError;
      }
      phnum := Uint(data, infoOffset, 4);
    }
    r := ReadTable(data, f, phoff, phentsize, phnum);
  }

  /** The loop over the program headers. */
  method ReadTable(data: Bytes, f: Format, phoff: nat, phentsize: nat, phnum: nat) returns (r: Parsed)
    requires Fits(f)
    ensures r == ParseTable(data, f, phoff, phentsize, phnum)
  {
    RowsAreProduct(phentsize, phnum);
    if phentsize < f.entrySize || phoff + phnum * phentsize > |data| {
      return ValueError;
    }
    ghost var table := Table(data, f, phoff, phentsize, phnum);
    var records := [];
    for index := 0 to phnum
      invariant TableRecords(data, table[..index]) == Some(records)
    {
      TableEntry(data, f, phoff, phentsize, phnum, index);
      var p := ReadPhdr(data, f, phoff, phentsize, index);
      var found := ReadSegment(data, p);
      TableStep(data, table, index);
      if found.None? {
        return ValueError;
      }
      records := records + found.value;
    }
    assert table[..phnum] == table;
    if |records| > 1 {
      return ValueError;
    }
    return if records != [] then Record(records[0]) else Record([]);
  }

  lemma {:induction false} TableEntry(data: Bytes, f: Format, phoff: nat, phentsize: nat, n: nat, index: nat)
    requires Fits(f) && phentsize >= f.entrySize && phoff + Rows(phentsize, n) <= |data| && index < n
    ensures phoff + Rows(phentsize, index) + f.entrySize <= |data|
    ensures Table(data, f, phoff, phentsize, n)[index] == PhdrAt(data, f, phoff + Rows(phentsize, index))
  {
    RowsGrow(phentsize, index, n);
    if index < n - 1 {
      TableEntry(data, f, phoff, phentsize, n - 1, index);
    }
  }

  lemma TableStep(data: Bytes, table: seq<Phdr>, index: nat)
    requires index < |table|
    ensures TableRecords(data, table[..index + 1])
            == Append(TableRecords(data, table[..index]), SegmentRecords(data, table[index]))
    ensures TableRecords(data, table[..index + 1]) == None ==> TableRecords(data, table) == None
  {
    assert table[..index + 1][..index] == table[..index];
    CutOffStays(data, table, index + 1);
  }

  lemma {:induction false} CutOffStays(data: Bytes, table: seq<Phdr>, n: nat)
    requires n <= |table|
    ensures TableRecords(data, table[..n]) == None ==> TableRecords(data, table) == None
    decreases |table| - n
  {
    if n < |table| {
      assert table[..n + 1][..n] == table[..n];
      CutOffStays(data, table, n + 1);
    } else {
      assert table[..n] == table;
    }
  }

  /** The entry of an index, whose place is found by a multiplication. */
  method ReadPhdr(data: Bytes, f: Format, phoff: nat, phentsize: nat, index: nat) returns (p: Phdr)
    requires Fits(f) && phoff + Rows(phentsize, index) + f.entrySize <= |data|
    ensures p == PhdrAt(data, f, phoff + Rows(phentsize, index))
  {
    RowsAreProduct(phentsize, index);
    p := UnpackPhdr(data, f, phoff + index * phentsize);
  }

  method UnpackPhdr(data: Bytes, f: Format, entry: nat) returns (p: Phdr)
    requires Fits(f) && entry + f.entrySize <= |data|
    ensures p == PhdrAt(data, f, entry)
  {
    var kind, offset := Uint(data, entry, 4), Uint(data, entry + f.offset, f.width);
    var size, align := Uint(data, entry + f.size, f.width), Uint(data, entry + f.align, f.width);
    p := Phdr(kind, offset, size, align);
  }

  method ReadSegment(data: Bytes, p: Phdr) returns (r: Option<seq<Bytes>>)
    ensures r == SegmentRecords(data, p)
  {
    if p.kind != PT_NOTE {
      return Some([]);
    }
    if p.offset + p.size > |data| {
      return None;
    }
    // in a segment aligned to 8 bytes, names and descriptions are, too
    var found := ReadNotes(data[p.offset..p.offset + p.size], if p.align == 8 then 8 else 4);
    return Some(found);
  }

  // ---- Well-formed images ----

  /** The program header table as the gABI lays it out: when it has PN_XNUM entries or more,
      the count is in the first section header. */
  ghost predicate HeaderHolds(data: Bytes, f: Format, phoff: nat, phentsize: nat, count: nat) {
    && |data| >= f.headerSize
    && FieldAt(data, f.phoff, f.width, phoff)
    && FieldAt(data, f.phentsize, 2, phentsize) && (count > 0 ==> phentsize >= f.entrySize)
    && FieldAt(data, f.phnum, 2, if count < PN_XNUM then count else PN_XNUM)
    && (count >= PN_XNUM ==> exists shoff: nat ::
          FieldAt(data, f.shoff, f.width, shoff) && FieldAt(data, shoff + f.info, 4, count))
  }

  predicate EntryHolds(data: Bytes, f: Format, entry: nat, p: Phdr) {
    && FieldAt(data, entry, 4, p.kind) && FieldAt(data, entry + f.offset, f.width, p.offset)
    && FieldAt(data, entry + f.size, f.width, p.size) && FieldAt(data, entry + f.align, f.width, p.align)
  }

  predicate RowHolds(data: Bytes, f: Format, phoff: nat, phentsize: nat, table: seq<Phdr>, i: nat)
    requires i < |table|
  {
    EntryHolds(data, f, phoff + Rows(phentsize, i), table[i])
  }

  predicate TableHolds(data: Bytes, f: Format, phoff: nat, phentsize: nat, table: seq<Phdr>) {
    && (table != [] ==> phoff + Rows(phentsize, |table|) <= |data|)
    && forall i | 0 <= i < |table| :: RowHolds(data, f, phoff, phentsize, table, i)
  }

  /** A segment and, for a note segment, the notes in it. */
  datatype Segment = Segment(phdr: Phdr, notes: seq<Note>, lastPad: nat)

  predicate SegmentHolds(data: Bytes, s: Segment) {
    s.phdr.kind == PT_NOTE ==>
      && s.phdr.offset + s.phdr.size <= |data|
      && AllEncodable(s.notes)
      && data[s.phdr.offset..s.phdr.offset + s.phdr.size] == EncodeNotes(s.notes, NoteAlignment(s.phdr), s.lastPad)
  }

  /** An image of a class with the given segments, whatever its other bytes are. */
  ghost predicate ImageHolds(data: Bytes, elf64: bool, phoff: nat, phentsize: nat, segments: seq<Segment>) {
    var f := FormatOf(elf64);
    && IsElf(data) && data[4] == (if elf64 then 2 else 1)
    && HeaderHolds(data, f, phoff, phentsize, |segments|)
    && TableHolds(data, f, phoff, phentsize, PhdrsOf(segments))
    && (forall s <- segments :: SegmentHolds(data, s))
  }

  /** The wanted descriptions of all note segments. */
  function WantedIn(segments: seq<Segment>): seq<Bytes> {
    if segments == [] then []
    else
      var last := segments[|segments| - 1];
      WantedIn(segments[..|segments| - 1]) + if last.phdr.kind == PT_NOTE then Wanted(last.notes) else []
  }

  function PhdrsOf(segments: seq<Segment>): (t: seq<Phdr>)
    ensures |t| == |segments| && forall i :: 0 <= i < |t| ==> t[i] == segments[i].phdr
  {
    seq(|segments|, i requires 0 <= i < |segments| => segments[i].phdr)
  }

  lemma EntryReads(data: Bytes, f: Format, entry: nat, p: Phdr)
    requires Fits(f) && entry + f.entrySize <= |data| && EntryHolds(data, f, entry, p)
    ensures PhdrAt(data, f, entry) == p
  {
    FieldReads(data, entry, 4, p.kind);
    FieldReads(data, entry + f.offset, f.width, p.offset);
    FieldReads(data, entry + f.size, f.width, p.size);
    FieldReads(data, entry + f.align, f.width, p.align);
  }

  lemma TableReads(data: Bytes, f: Format, phoff: nat, phentsize: nat, table: seq<Phdr>)
    requires Fits(f) && phentsize >= f.entrySize && phoff + Rows(phentsize, |table|) <= |data|
    requires TableHolds(data, f, phoff, phentsize, table)
    ensures Table(data, f, phoff, phentsize, |table|) == table
  {
    SameRows(Table(data, f, phoff, phentsize, |table|), table) by {
      forall i | 0 <= i < |table| ensures Table(data, f, phoff, phentsize, |table|)[i] == table[i] {
        assert RowHolds(data, f, phoff, phentsize, table, i);
        RowReads(data, f, phoff, phentsize, table, i);
      }
    }
  }

  lemma SameRows(a: seq<Phdr>, b: seq<Phdr>)
    requires |a| == |b| && forall i | 0 <= i < |a| :: a[i] == b[i]
    ensures a == b
  {
  }

  lemma RowReads(data: Bytes, f: Format, phoff: nat, phentsize: nat, table: seq<Phdr>, i: nat)
    requires Fits(f) && phentsize >= f.entrySize && phoff + Rows(phentsize, |table|) <= |data|
    requires i < |table| && RowHolds(data, f, phoff, phentsize, table, i)
    ensures Table(data, f, phoff, phentsize, |table|)[i] == table[i]
  {
    TableEntry(data, f, phoff, phentsize, |table|, i);
    EntryReads(data, f, phoff + Rows(phentsize, i), table[i]);
  }

  lemma CountReads(data: Bytes, f: Format, phoff: nat, phentsize: nat, count: nat)
    requires Fits(f) && HeaderHolds(data, f, phoff, phentsize, count)
    ensures HeaderCount(data, f) == Some(count)
    ensures Uint(data, f.phnum, 2) == 0 <==> count == 0
  {
    FieldReads(data, f.phnum, 2, if count < PN_XNUM then count else PN_XNUM);
    if count >= PN_XNUM {
      var shoff: nat :| FieldAt(data, f.shoff, f.width, shoff) && FieldAt(data, shoff + f.info, 4, count);
      FieldReads(data, f.shoff, f.width, shoff);
      FieldReads(data, shoff + f.info, 4, count);
    }
  }

  lemma ReadsNotes(segment: Bytes, ns: seq<Note>, alignment: nat, lastPad: nat)
    requires alignment == 4 || alignment == 8
    requires segment == EncodeNotes(ns, alignment, lastPad) && AllEncodable(ns)
    ensures Records(segment, alignment, 0) == Wanted(ns)
  {
    LoopUndoesEncoder([], ns, alignment, lastPad);
    assert [] + segment == segment;
  }

  lemma SegmentReads(data: Bytes, s: Segment)
    requires SegmentHolds(data, s)
    ensures SegmentRecords(data, s.phdr) == Some(if s.phdr.kind == PT_NOTE then Wanted(s.notes) else [])
  {
    var p := s.phdr;
    if p.kind == PT_NOTE {
      NoteSegmentReads(data, p, data[p.offset..p.offset + p.size], s.notes, s.lastPad);
    }
  }

  lemma NoteSegmentReads(data: Bytes, p: Phdr, segment: Bytes, ns: seq<Note>, lastPad: nat)
    requires p.kind == PT_NOTE && p.offset + p.size <= |data| && segment == data[p.offset..p.offset + p.size]
    requires segment == EncodeNotes(ns, NoteAlignment(p), lastPad) && AllEncodable(ns)
    ensures SegmentRecords(data, p) == Some(Wanted(ns))
  {
    calc {
      SegmentRecords(data, p);
      Some(Records(segment, NoteAlignment(p), 0));
      { ReadsNotes(segment, ns, NoteAlignment(p), lastPad); }
      Some(Wanted(ns));
    }
  }

  lemma {:induction false} SegmentsRead(data: Bytes, segments: seq<Segment>)
    requires forall s <- segments :: SegmentHolds(data, s)
    ensures TableRecords(data, PhdrsOf(segments)) == Some(WantedIn(segments))
  {
    if segments != [] {
      var last := |segments| - 1;
      SegmentsRead(data, segments[..last]);
      SegmentReads(data, segments[last]);
      assert PhdrsOf(segments)[..last] == PhdrsOf(segments[..last]);
    }
  }

  lemma HeaderReads(data: Bytes, f: Format, phoff: nat, phentsize: nat, count: nat)
    requires Fits(f) && HeaderHolds(data, f, phoff, phentsize, count)
    ensures ParseHeader(data, f) == if count == 0 then Record([]) else ParseTable(data, f, phoff, phentsize, count)
  {
    CountReads(data, f, phoff, phentsize, count);
    FieldReads(data, f.phoff, f.width, phoff);
    FieldReads(data, f.phentsize, 2, phentsize);
  }

  lemma ParsesTable(data: Bytes, f: Format, phoff: nat, phentsize: nat, table: seq<Phdr>, records: seq<Bytes>)
    requires Fits(f) && phentsize >= f.entrySize && phoff + Rows(phentsize, |table|) <= |data|
    requires Table(data, f, phoff, phentsize, |table|) == table && TableRecords(data, table) == Some(records)
    ensures ParseTable(data, f, phoff, phentsize, |table|) == OneRecord(records)
  {
  }

  /** The parser undoes the format: for a well-formed image it returns the one wanted description,
      empty bytes without any, and fails exactly when there is more than one. */
  lemma ParsesImage(data: Bytes, elf64: bool, phoff: nat, phentsize: nat, segments: seq<Segment>)
    requires ImageHolds(data, elf64, phoff, phentsize, segments)
    ensures Parse(data) == OneRecord(WantedIn(segments))
    ensures Parse(data) == ValueError <==> |WantedIn(segments)| > 1
  {
    ParsesHeader(data, FormatOf(elf64), phoff, phentsize, segments);
  }

  lemma ParsesHeader(data: Bytes, f: Format, phoff: nat, phentsize: nat, segments: seq<Segment>)
    requires Fits(f) && HeaderHolds(data, f, phoff, phentsize, |segments|)
    requires TableHolds(data, f, phoff, phentsize, PhdrsOf(segments))
    requires forall s <- segments :: SegmentHolds(data, s)
    ensures ParseHeader(data, f) == OneRecord(WantedIn(segments))
  {
    calc {
      ParseHeader(data, f);
      { HeaderReads(data, f, phoff, phentsize, |segments|); }
      if segments == [] then Record([]) else ParseTable(data, f, phoff, phentsize, |segments|);
      { if segments != [] { ParsesSegments(data, f, phoff, phentsize, segments, PhdrsOf(segments)); } }
      OneRecord(WantedIn(segments));
    }
  }

  lemma ParsesSegments(data: Bytes, f: Format, phoff: nat, phentsize: nat, segments: seq<Segment>, table: seq<Phdr>)
    requires Fits(f) && phentsize >= f.entrySize && phoff + Rows(phentsize, |table|) <= |data|
             && table == PhdrsOf(segments)
    requires TableHolds(data, f, phoff, phentsize, table)
    requires forall s <- segments :: SegmentHolds(data, s)
    ensures ParseTable(data, f, phoff, phentsize, |table|) == OneRecord(WantedIn(segments))
  {
    SegmentsRead(data, segments);
    TableReads(data, f, phoff, phentsize, table);
    ParsesTable(data, f, phoff, phentsize, table, WantedIn(segments));
  }

  // ---- Guarding a command ----

  /** What is found at a path. */
  datatype File = Regular(data: Bytes) | Symlink | Other

  type Files = map<string, File>

  /** The module files that are looked at, and the record each one must keep. */
  function RecordOf(files: Files, path: string): Parsed {
    if path in files && files[path].Regular? then Parse(files[path].data) else Record([])
  }

  /** A file still holds a record. */
  predicate StillHolds(files: Files, path: string, record: Bytes) {
    path in files && files[path].Regular? && Parse(files[path].data) == Record(record)
  }

  /** Records to keep: the saved ones are exactly those of the modules that have one. */
  predicate SavedRecords(before: Files, paths: seq<string>, saved: seq<(string, Bytes)>) {
    && (forall path <- paths :: RecordOf(before, path).Record?)
    && (forall s <- saved :: s.0 in paths && s.1 != [] && RecordOf(before, s.0) == Record(s.1))
    && (forall path <- paths :: RecordOf(before, path) != Record([]) ==> exists s <- saved :: s.0 == path)
  }

  lemma SavedMore(before: Files, paths: seq<string>, saved: seq<(string, Bytes)>, path: string, record: Bytes)
    requires SavedRecords(before, paths, saved) && RecordOf(before, path) == Record(record)
    ensures record != [] ==> SavedRecords(before, paths + [path], saved + [(path, record)])
    ensures record == [] ==> SavedRecords(before, paths + [path], saved)
  {
    var more := saved + [(path, record)];
    assert more[|saved|] == (path, record);
    forall s | s in saved ensures s in more {
    }
  }

  /** The first loop: the records of the modules. */
  method SaveRecords(before: Files, paths: seq<string>) returns (saved: Option<seq<(string, Bytes)>>)
    ensures saved == None <==> exists path <- paths :: RecordOf(before, path) == ValueError
    ensures saved.Some? ==> SavedRecords(before, paths, saved.value)
  {
    var found := [];
    for i := 0 to |paths|
      invariant SavedRecords(before, paths[..i], found)
    {
      var record := ReadRecord(before, paths[i]);
      assert paths[..i + 1] == paths[..i] + [paths[i]];
      if record.ValueError? {
        return None;
      }
      SavedMore(before, paths[..i], found, paths[i], record.data);
      if record.data != [] {
        found := found + [(paths[i], record.data)];
      }
    }
    assert paths[..|paths|] == paths;
    return Some(found);
  }

  method ReadRecord(files: Files, path: string) returns (record: Parsed)
    ensures record == RecordOf(files, path)
  {
    if path !in files || !files[path].Regular? {
      return Record([]);
    }
    record := ReadModuleInfo(files[path].data);
  }

  predicate IsFile(files: Files, path: string) { path in files && files[path].Regular? }

  /** What the records say about the files themselves. */
  lemma RecordsKept(before: Files, after: Files, paths: seq<string>)
    ensures forall path ::
              RecordOf(before, path) == if IsFile(before, path) then Parse(before[path].data) else Record([])
    ensures forall path, record :: StillHolds(after, path, record) <==>
              IsFile(after, path) && Parse(after[path].data) == Record(record)
  {
  }

  /** Runs a command that turns `before` into `after`. None: a module could not be parsed at the
      start, so the command was not run. Otherwise, the number of errors: none if and only if the
      command succeeded and every module that had a record still holds it. */
  method Preserve(before: Files, after: Files, paths: seq<string>, commandFails: bool) returns (errors: Option<nat>)
    ensures errors == None <==> exists path <- paths :: IsFile(before, path) && Parse(before[path].data) == ValueError
    ensures errors == Some(0) <==>
            && !commandFails
            && forall path <- paths | IsFile(before, path) ::
                 var record := Parse(before[path].data);
                 record != ValueError
                 && (record != Record([]) ==> IsFile(after, path) && Parse(after[path].data) == record)
  {
    RecordsKept(before, after, paths);
    var saved := SaveRecords(before, paths);
    if saved.None? {
      return None;
    }
    var lost := CountLost(after, saved.value);
    return Some(if commandFails then 1 + lost else lost);
  }

  /** The second loop: a failed check does not prevent the check of the remaining modules. */
  method CountLost(after: Files, saved: seq<(string, Bytes)>) returns (lost: nat)
    requires forall s <- saved :: s.1 != []
    ensures lost == 0 <==> forall s <- saved :: StillHolds(after, s.0, s.1)
  {
    lost := 0;
    for i := 0 to |saved|
      invariant lost == 0 <==> forall s <- saved[..i] :: StillHolds(after, s.0, s.1)
    {
      var held := CheckModule(after, saved[i].0, saved[i].1);
      if !held {
        lost := lost + 1;
      }
      assert saved[..i + 1] == saved[..i] + [saved[i]];
    }
    assert saved[..|saved|] == saved;
  }

  method CheckModule(after: Files, path: string, record: Bytes) returns (held: bool)
    requires record != []
    ensures held == StillHolds(after, path, record)
  {
    if path !in after || !after[path].Regular? {
      return false;
    }
    var current := ReadModuleInfo(after[path].data);
    return current.Record? && current.data != [] && current.data == record;
  }
}
