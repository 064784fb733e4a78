/** The input buffer: the full current text as bytes, updated in place from
    an edit descriptor. */
module InputBuffer {

  /** A byte of ASCII text. Text is modelled one byte per character, which
      holds for ASCII; wider characters are not modelled. */
  type Byte = c: char | c as int < 128

  /** `InputBuffer`: the bytes, the start of the last edit, and the vector's
      reserved capacity. */
  datatype Buffer = Buffer(bytes: seq<Byte>, editStart: nat, capacity: nat)

  predicate Valid(b: Buffer) {
    |b.bytes| <= b.capacity
  }

  /** `InputBuffer::new`: empty, with room for 1024 bytes reserved. */
  function New(): (b: Buffer)
    ensures b.bytes == [] && b.editStart == 0 && b.capacity == 1024 && Valid(b)
  {
    Buffer([], 0, 1024)
  }

  /** `as_str`: the contents (the bytes are taken as text unchecked). */
  function AsStr(b: Buffer): seq<Byte> {
    b.bytes
  }

  /** What `update` demands of its caller: the slice of the new text must
      lie inside it, and the unsigned length arithmetic must not underflow. */
  predicate UpdateRequires(b: Buffer, newInput: seq<Byte>, editPos: nat, oldEnd: nat, newEnd: nat) {
    && editPos <= newEnd <= |newInput|
    && editPos <= oldEnd
    && oldEnd - editPos <= |b.bytes|
  }

  /** `Vec::truncate`: no effect when the vector is already short enough. */
  function Truncate(s: seq<Byte>, n: nat): (r: seq<Byte>)
    ensures |r| == if n < |s| then n else |s|
    ensures r <= s
  {
    if n < |s| then s[..n] else s
  }

  /** `update`: estimate the new length and reserve room for it when the
      capacity falls short, cut the bytes at the edit start, then append the
      edited region of the new text. Growing while appending keeps the
      capacity at least the length. */
  function Update(b: Buffer, newInput: seq<Byte>, editPos: nat, oldEnd: nat, newEnd: nat): (r: Buffer)
    requires UpdateRequires(b, newInput, editPos, oldEnd, newEnd)
    ensures var kept := if editPos < |b.bytes| then editPos else |b.bytes|;
      r.bytes == b.bytes[..kept] + newInput[editPos..newEnd]
    ensures r.editStart == editPos
    ensures Valid(r)
  {
    var newLen := |b.bytes| - (oldEnd - editPos) + (newEnd - editPos);
    var reserved := if b.capacity < newLen then newLen else b.capacity;
    var bytes := Truncate(b.bytes, editPos) + newInput[editPos..newEnd];
    Buffer(bytes, editPos, if reserved < |bytes| then |bytes| else reserved)
  }

  /** The round trip the caller relies on: when the old text and the new
      one agree before the edit start and the edit runs to the end of the
      new text, the buffer ends up holding exactly the new text. */
  lemma UpdateReproducesInput(b: Buffer, newInput: seq<Byte>, editPos: nat, oldEnd: nat)
    requires UpdateRequires(b, newInput, editPos, oldEnd, |newInput|)
    requires editPos <= |b.bytes| && b.bytes[..editPos] == newInput[..editPos]
    ensures Update(b, newInput, editPos, oldEnd, |newInput|).bytes == newInput
  {
    assert newInput == newInput[..editPos] + newInput[editPos..];
  }

  /** The contents and edit start do not depend on the capacity, so not on
      whether the reserve step ran. */
  lemma UpdateIgnoresCapacity(b: Buffer, c: nat, newInput: seq<Byte>, editPos: nat, oldEnd: nat, newEnd: nat)
    requires UpdateRequires(b, newInput, editPos, oldEnd, newEnd)
    ensures Update(b, newInput, editPos, oldEnd, newEnd).bytes
         == Update(b.(capacity := c), newInput, editPos, oldEnd, newEnd).bytes
    ensures Update(b, newInput, editPos, oldEnd, newEnd).editStart
         == Update(b.(capacity := c), newInput, editPos, oldEnd, newEnd).editStart
  {
  }

  /** The buffer's own tests: a partial update, and successive appends. */
  lemma UpdateScenarios()
    ensures var b := Update(New(), "123", 0, 0, 3);
      b.bytes == "123" && Update(b, "1245", 2, 3, 4).bytes == "1245"
    ensures var b1 := Update(New(), "1 1", 0, 0, 3);
      var b2 := Update(b1, "1 1 1", 3, 3, 5);
      b1.bytes == "1 1" && b2.bytes == "1 1 1" && Update(b2, "1 1 1 1", 5, 5, 7).bytes == "1 1 1 1"
  {
    var b := Update(New(), "123", 0, 0, 3);
    assert b.bytes == "123";
    assert "123"[..2] == "12";
    var b1 := Update(New(), "1 1", 0, 0, 3);
    assert b1.bytes == "1 1";
    var b2 := Update(b1, "1 1 1", 3, 3, 5);
    assert b2.bytes == "1 1 1";
  }
}
