/** The byte streams that headers and messages are written to and read from, field by field. */
module Streams {
  import opened Bytes
  import opened Wrappers

  /** Reading takes a value off the front of what is left, or fails at the end. */
  function TakeU8<E>(b: Bytes, eof: E): Result<(Byte, Bytes), E> {
    if |b| < 1 then Err(eof) else Ok((b[0], b[1..]))
  }

  function TakeU16<E>(b: Bytes, eof: E): Result<(U16, Bytes), E> {
    if |b| < 2 then Err(eof) else Ok((Read16(b[..2]), b[2..]))
  }

  function TakeU24<E>(b: Bytes, eof: E): Result<(U24, Bytes), E> {
    if |b| < 3 then Err(eof) else Ok((Read24(b[..3]), b[3..]))
  }

  function TakeU32<E>(b: Bytes, eof: E): Result<(U32, Bytes), E> {
    if |b| < 4 then Err(eof) else Ok((Read32(b[..4]), b[4..]))
  }

  function TakeExact<E>(b: Bytes, n: nat, eof: E): Result<(Bytes, Bytes), E> {
    if |b| < n then Err(eof) else Ok((b[..n], b[n..]))
  }

  lemma TakeU8Of<E>(x: Byte, rest: Bytes, eof: E)
    ensures TakeU8([x] + rest, eof) == Ok((x, rest))
  {
    assert ([x] + rest)[1..] == rest;
  }

  lemma TakeU16Of<E>(x: U16, rest: Bytes, eof: E)
    ensures TakeU16(Be16(x) + rest, eof) == Ok((x, rest))
  {
    Split(Be16(x), rest);
  }

  lemma TakeU32Of<E>(x: U32, rest: Bytes, eof: E)
    ensures TakeU32(Be32(x) + rest, eof) == Ok((x, rest))
  {
    Split(Be32(x), rest);
  }

  lemma TakeExactOf<E>(x: Bytes, rest: Bytes, eof: E)
    ensures TakeExact(x + rest, |x|, eof) == Ok((x, rest))
  {
    Split(x, rest);
  }

  lemma Split(a: Bytes, b: Bytes)
    ensures (a + b)[..|a|] == a && (a + b)[|a|..] == b
  {
  }

  /** What a reading method returns and leaves is what the function says. */
  ghost predicate Reads<T, E>(r: Result<T, E>, left: Bytes, spec: Result<(T, Bytes), E>) {
    match spec
    case Ok((x, rest)) => r == Ok(x) && left == rest
    case Err(e) => r == Err(e)
  }

  class Writer {
    var written: Bytes

    constructor ()
      ensures written == []
    {
      written := [];
    }

    method WriteU8(x: Byte)
      modifies this
      ensures written == old(written) + [x]
    {
      written := written + [x];
    }

    method WriteU16(x: U16)
      modifies this
      ensures written == old(written) + Be16(x)
    {
      written := written + Be16(x);
    }

    method WriteU24(x: U24)
      modifies this
      ensures written == old(written) + Be24(x)
    {
      written := written + Be24(x);
    }

    method WriteU32(x: U32)
      modifies this
      ensures written == old(written) + Be32(x)
    {
      written := written + Be32(x);
    }

    method WriteAll(b: Bytes)
      modifies this
      ensures written == old(written) + b
    {
      written := written + b;
    }
  }

  class Reader {
    var rest: Bytes

    constructor (b: Bytes)
      ensures rest == b
    {
      rest := b;
    }

    method ReadU8<E>(eof: E) returns (r: Result<Byte, E>)
      modifies this
      ensures Reads(r, rest, TakeU8(old(rest), eof))
    {
      if |rest| < 1 {
        return Err(eof);
      }
      r := Ok(rest[0]);
      rest := rest[1..];
    }

    method ReadU16<E>(eof: E) returns (r: Result<U16, E>)
      modifies this
      ensures Reads(r, rest, TakeU16(old(rest), eof))
    {
      if |rest| < 2 {
        return Err(eof);
      }
      r := Ok(Read16(rest[..2]));
      rest := rest[2..];
    }

    method ReadU24<E>(eof: E) returns (r: Result<U24, E>)
      modifies this
      ensures Reads(r, rest, TakeU24(old(rest), eof))
    {
      if |rest| < 3 {
        return Err(eof);
      }
      r := Ok(Read24(rest[..3]));
      rest := rest[3..];
    }

    method ReadU32<E>(eof: E) returns (r: Result<U32, E>)
      modifies this
      ensures Reads(r, rest, TakeU32(old(rest), eof))
    {
      if |rest| < 4 {
        return Err(eof);
      }
      r := Ok(Read32(rest[..4]));
      rest := rest[4..];
    }

    method ReadExact<E>(n: nat, eof: E) returns (r: Result<Bytes, E>)
      modifies this
      ensures Reads(r, rest, TakeExact(old(rest), n, eof))
    {
      if |rest| < n {
        return Err(eof);
      }
      r := Ok(rest[..n]);
      rest := rest[n..];
    }
  }
}
