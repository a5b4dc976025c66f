/** Reading a byte range of several files laid end to end. */
module CatCommand {

  newtype Byte = x: int | 0 <= x < 256

  type Bytes = seq<Byte>

  /** What a path names. */
  datatype Entry = File(data: Bytes) | Directory | OtherNode | Unresolvable

  datatype CatError = IsDir | NotSupported | CannotResolve

  /** A file from its current position, or the first `n` bytes of that. */
  datatype Reader = Whole(rest: Bytes) | Limited(rest: Bytes, n: nat)

  datatype CatResult = Ok(readers: seq<Reader>, length: nat) | Err(error: CatError)

  function Output(r: Reader): Bytes {
    if r.Limited? && r.n < |r.rest| then r.rest[..r.n] else r.rest
  }

  function Outputs(readers: seq<Reader>): Bytes {
    if readers == [] then [] else Outputs(readers[..|readers| - 1]) + Output(readers[|readers| - 1])
  }

  lemma OutputsAppend(readers: seq<Reader>, r: Reader)
    ensures Outputs(readers + [r]) == Outputs(readers) + Output(r)
  {
  }

  /** The bytes from `offset` on, at most `max` of them; all of them when `max` is negative. */
  function Slice(data: Bytes, offset: nat, max: int): Bytes {
    var rest := if offset <= |data| then data[offset..] else [];
    if 0 <= max < |rest| then rest[..max] else rest
  }

  /** Which bytes those are. */
  lemma SliceByIndex(data: Bytes, offset: nat, max: int)
    ensures var available := if offset < |data| then |data| - offset else 0;
            |Slice(data, offset, max)| == if 0 <= max < available then max else available
    ensures forall i :: 0 <= i < |Slice(data, offset, max)| ==> Slice(data, offset, max)[i] == data[offset + i]
  {
  }

  /** The files before the first entry that is not a file, laid end to end. */
  function Joined(entries: seq<Entry>): Bytes {
    if entries == [] || !entries[0].File? then [] else entries[0].data + Joined(entries[1..])
  }

  /** The error for the first entry that is not a file, if there is one. */
  function FirstError(entries: seq<Entry>): seq<CatError> {
    if entries == [] then []
    else match entries[0]
      case File(_) => FirstError(entries[1..])
      case Directory => [IsDir]
      case OtherNode => [NotSupported]
      case Unresolvable => [CannotResolve]
  }

  lemma {:induction false} SplitJoined(before: seq<Entry>, rest: seq<Entry>)
    requires forall e :: e in before ==> e.File?
    ensures Joined(before + rest) == Joined(before) + Joined(rest)
    ensures FirstError(before + rest) == FirstError(rest)
    decreases |before|
  {
    if before == [] {
      assert before + rest == rest;
    } else {
      SplitJoined(before[1..], rest);
      assert (before + rest)[1..] == before[1..] + rest;
    }
  }

  /** Which error comes: that of the first entry that is not a file, told by what it is; none if all are. */
  lemma {:induction false} FirstErrorByEntry(entries: seq<Entry>, i: nat)
    requires i <= |entries| && forall e :: e in entries[..i] ==> e.File?
    ensures i == |entries| ==> FirstError(entries) == []
    ensures i < |entries| && entries[i].Directory? ==> FirstError(entries) == [IsDir]
    ensures i < |entries| && entries[i].OtherNode? ==> FirstError(entries) == [NotSupported]
    ensures i < |entries| && entries[i].Unresolvable? ==> FirstError(entries) == [CannotResolve]
  {
    assert entries == entries[..i] + entries[i..];
    SplitJoined(entries[..i], entries[i..]);
  }

  /** The joined files reach the end of the requested range, so nothing after them is looked at. */
  predicate Filled(data: Bytes, offset: nat, max: int) {
    0 <= max && (max == 0 || offset + max <= |data|)
  }

  /** One more file lengthens the part read so far by the part of it past the offset. */
  lemma SliceGrows(data: Bytes, more: Bytes, offset: nat)
    ensures Slice(data + more, offset, -1)
         == Slice(data, offset, -1) + Slice(more, if offset > |data| then offset - |data| else 0, -1)
  {
  }

  /** Once the range is filled, later files do not change it. */
  lemma SliceOfFilled(data: Bytes, more: Bytes, offset: nat, max: int)
    requires Filled(data, offset, max)
    ensures Slice(data + more, offset, max) == Slice(data, offset, max)
  {
  }

  /** Looking at one more entry that is a file. */
  lemma OneMoreFile(entries: seq<Entry>, i: nat)
    requires i < |entries| && entries[i].File? && forall e :: e in entries[..i] ==> e.File?
    ensures Joined(entries[..i + 1]) == Joined(entries[..i]) + entries[i].data
    ensures Joined(entries) == Joined(entries[..i + 1]) + Joined(entries[i + 1..])
    ensures forall e :: e in entries[..i + 1] ==> e.File?
  {
    assert entries[..i + 1] == entries[..i] + [entries[i]];
    SplitJoined(entries[..i], [entries[i]]);
    assert Joined([entries[i]]) == entries[i].data;
    assert entries == entries[..i + 1] + entries[i + 1..];
    SplitJoined(entries[..i + 1], entries[i + 1..]);
  }

  /** Adds a reader for the rest of a file, cut short if it overshoots the limit. */
  method AddReader(readers: seq<Reader>, length: nat, rest: Bytes, max: int)
    returns (readers': seq<Reader>, length': nat, full: bool)
    requires length == |Outputs(readers)| && (max <= 0 || length < max)
    ensures full <==> 0 < max <= length + |rest|
    ensures Outputs(readers') == Slice(Outputs(readers) + rest, 0, if full then max else -1)
    ensures length' == |Outputs(readers')|
  {
    var size := |rest|;
    length' := length + size;
    full := max > 0 && length' >= max;
    var r := Whole(rest);
    if full {
      var overshoot := length' - max;
      if overshoot != 0 {
        r := Limited(rest, size - overshoot);
        length' := max;
      }
    }
    OutputsAppend(readers, r);
    readers' := readers + [r];
  }

  /** What the loop knows after the files whose joined contents are `data`. */
  ghost predicate Progress(data: Bytes, offset: nat, max: int, readers: seq<Reader>, length: nat, skip: nat) {
    && skip == (if offset > |data| then offset - |data| else 0)
    && Outputs(readers) == Slice(data, offset, -1)
    && length == |Outputs(readers)|
    && !Filled(data, offset, max)
  }

  /** One turn of the loop: skip the file, or read on from where the range starts in it. */
  method TakeFile(
    file: Bytes, readers: seq<Reader>, length: nat, skip: nat, max: int, ghost data: Bytes, ghost offset: nat)
    returns (readers': seq<Reader>, length': nat, skip': nat, full: bool)
    requires max != 0 && Progress(data, offset, max, readers, length, skip)
    ensures full <==> Filled(data + file, offset, max)
    ensures full ==> Outputs(readers') == Slice(data + file, offset, max) && length' == |Outputs(readers')|
    ensures !full ==> Progress(data + file, offset, max, readers', length', skip')
  {
    SliceGrows(data, file, offset);
    if skip > |file| {
      return readers, length, skip - |file|, false;
    }
    readers', length', full := AddReader(readers, length, file[skip..], max);
    skip' := 0;
  }

  /**
   The readers' outputs, end to end, are the requested slice of the joined
   files. It fails exactly when an entry that is not a file comes before the slice is
   complete; entries past the end of the slice are not even resolved.
   */
  method Cat(entries: seq<Entry>, offset: nat, max: int) returns (r: CatResult)
    ensures r.Err? <==> FirstError(entries) != [] && !Filled(Joined(entries), offset, max)
    ensures r.Err? ==> [r.error] == FirstError(entries)
    ensures r.Ok? ==> Outputs(r.readers) == Slice(Joined(entries), offset, max)
    ensures r.Ok? ==> r.length == |Slice(Joined(entries), offset, max)|
  {
    if max == 0 {
      return Ok([], 0);
    }
    var readers: seq<Reader>, length: nat, skip: nat := [], 0, offset;
    for i := 0 to |entries|
      invariant forall e :: e in entries[..i] ==> e.File?
      invariant Progress(Joined(entries[..i]), offset, max, readers, length, skip)
    {
      assert entries == entries[..i] + entries[i..];
      SplitJoined(entries[..i], entries[i..]);
      match entries[i] {
        case Directory => return Err(IsDir);
        case OtherNode => return Err(NotSupported);
        case Unresolvable => return Err(CannotResolve);
        case File(file) =>
          OneMoreFile(entries, i);
          var full: bool;
          readers, length, skip, full := TakeFile(file, readers, length, skip, max, Joined(entries[..i]), offset);
          if full {
            SliceOfFilled(Joined(entries[..i + 1]), Joined(entries[i + 1..]), offset, max);
            return Ok(readers, length);
          }
      }
    }
    assert entries[..|entries|] == entries && entries + [] == entries;
    SplitJoined(entries, []);
    r := Ok(readers, length);
  }
}
