/** The growing string buffer of benchmark/src/json_writer.c.  A C string is given by its characters, the terminator
    left aside. */
module StringBuffer {
  import opened Decimal

  /** What a format call yields: the text, or the negative return value of `vsnprintf`. */
  datatype Formatted = Failed | Text(s: string)

  class SB {
    var buf: array<char>
    var len: nat
    var cap: nat
    ghost const initial: nat
    ghost var copied: nat  // capacity moved by all reallocations so far
    ghost var Repr: set<object>

    /** The buffer holds a terminated string with room to spare; the reallocations have moved what the capacity has
        grown by. */
    ghost predicate Shaped()
      reads this, buf
    {
      && Repr == {this, buf}
      && buf.Length == cap
      && len + 1 <= cap
      && buf[len] == '\0'
      && 1 <= initial <= cap
      && copied == cap - initial
    }

    ghost predicate Valid()
      reads this, buf
    {
      Shaped() && (cap == initial || cap <= 2 * len)
    }

    ghost function Contents(): string
      requires Shaped()
      reads this, buf
    {
      buf[..len]
    }

    constructor (initial: nat)
      requires initial >= 1
      ensures Valid() && Contents() == "" && fresh(Repr)
      ensures this.initial == cap == initial
    {
      buf := new char[initial](_ => '\0');
      len := 0;
      cap := initial;
      this.initial := initial;
      copied := 0;
      Repr := {this, buf};
    }

    /** `realloc` to a larger capacity. */
    method Reallocate(newCap: nat)
      requires Shaped() && newCap > cap
      modifies this
      ensures fresh(buf) && Repr == {this, buf} && buf.Length == cap == newCap && len == old(len)
      ensures buf[..len + 1] == old(buf[..len + 1])
      ensures copied == old(copied) + old(cap)
    {
      var bigger := new char[newCap];
      forall i | 0 <= i < cap {
        bigger[i] := buf[i];
      }
      copied := copied + cap;
      buf := bigger;
      cap := newCap;
      Repr := {this, buf};
      assert buf[..len + 1] == old(buf[..len + 1]);
    }

    /** Doubles the capacity until `needed` more characters and the terminator fit; never further than that. */
    method Grow(needed: nat)
      requires Shaped()
      modifies this
      ensures Shaped() && Contents() == old(Contents()) && len == old(len)
      ensures fresh(Repr - old(Repr))
      ensures len + needed + 1 <= cap
      ensures cap == old(cap) || cap <= 2 * (len + needed)
    {
      while len + needed + 1 > cap
        invariant Shaped() && Contents() == old(Contents()) && len == old(len)
        invariant fresh(Repr - old(Repr))
        invariant cap == old(cap) || cap <= 2 * (len + needed)
        decreases len + needed + 1 - cap
      {
        ghost var before := buf[..len + 1];
        Reallocate(2 * cap);
        assert buf[..len] == before[..len] && buf[len] == before[len];
      }
    }

    /** Appends a C string.  Capacity and copying stay in proportion to the text: the capacity is at most the larger of
        the initial one and twice the length, and all reallocations so far have moved less than that capacity. */
    method Append(s: string)
      requires Valid()
      modifies Repr
      ensures Valid() && Contents() == old(Contents()) + s
      ensures (cap <= initial || cap <= 2 * |Contents()|) && copied < cap
      ensures fresh(Repr - old(Repr))
    {
      var n := |s|;
      Grow(n);
      ghost var before := Contents();
      forall i | 0 <= i < n {
        buf[len + i] := s[i];
      }
      buf[len + n] := '\0';
      len := len + n;
      assert buf[..len] == before + s;
    }

    /** Formats through a buffer of 256 characters on the stack, or through a larger one when the text does not fit. */
    method Printf(formatted: Formatted)
      requires Valid()
      modifies Repr
      ensures Valid()
      ensures Contents() == old(Contents()) + (if formatted.Text? then formatted.s else "")
      ensures fresh(Repr - old(Repr))
    {
      if formatted.Failed? {
        assert Contents() + "" == Contents();
        return;
      }
      var tmp := Snprintf(256, formatted.s);
      var n := |formatted.s|;
      if n >= 256 {
        var big := Snprintf(n + 1, formatted.s);
        Append(big);
      } else {
        Append(tmp);
      }
    }

    /** The characters that `fwrite` takes from the buffer in the end. */
    method Text() returns (text: string)
      requires Valid()
      ensures text == Contents()
    {
      text := buf[..len];
    }
  }
}
