/** lazybuffer.go: `LazyBuffer`, a `strings.Builder` whose writers never
    return errors, return their receiver for chaining, and do nothing on a
    nil receiver. Go receivers become a `LazyBuffer?` parameter of static
    members so that the nil case is explicit. */
module Buffer {
  import opened Utf8

  /** A Go string, as the bytes it holds. */
  type Bytes = seq<byte>

  /** The bytes of a string literal made of ASCII characters. */
  function Ascii(s: string): (bs: Bytes)
    requires forall i :: 0 <= i < |s| ==> s[i] < 128 as char
    ensures |bs| == |s|
  {
    seq(|s|, i requires 0 <= i < |s| => s[i] as int as byte)
  }

  /** The strings, one after another. */
  function Concat(ss: seq<Bytes>): Bytes {
    if ss == [] then [] else Concat(ss[..|ss| - 1]) + ss[|ss| - 1]
  }

  /** Every string of `ne` is non-empty and occurs in `ss`. */
  predicate NonEmptyFrom(ne: seq<Bytes>, ss: seq<Bytes>) {
    forall k :: 0 <= k < |ne| ==> ne[k] != [] && ne[k] in ss
  }

  /** The strings of `ss` that are not empty, in order. */
  function NonEmpty(ss: seq<Bytes>): (ne: seq<Bytes>)
    ensures |ne| <= |ss|
    ensures NonEmptyFrom(ne, ss)
  {
    if ss == [] then []
    else NonEmpty(ss[..|ss| - 1]) + (if ss[|ss| - 1] == [] then [] else [ss[|ss| - 1]])
  }

  /** Concatenation distributes over joining lists of strings. */
  lemma {:induction false} ConcatAppend(a: seq<Bytes>, b: seq<Bytes>)
    ensures Concat(a + b) == Concat(a) + Concat(b)
    decreases |b|
  {
    if b == [] {
      assert a + b == a;
    } else {
      var ab := a + b;
      assert ab[..|ab| - 1] == a + b[..|b| - 1];
      ConcatAppend(a, b[..|b| - 1]);
    }
  }

  /** Writing one more string adds it at the end, whether or not it is
      empty: an empty one is skipped and adds nothing either way. */
  lemma ConcatNonEmptyStep(ss: seq<Bytes>, s: Bytes)
    ensures Concat(NonEmpty(ss + [s])) == Concat(NonEmpty(ss)) + s
  {
    var all := ss + [s];
    assert all[..|all| - 1] == ss;
    if s == [] {
      assert NonEmpty(all) == NonEmpty(ss) + [];
      assert NonEmpty(ss) + [] == NonEmpty(ss);
    } else {
      assert NonEmpty(all) == NonEmpty(ss) + [s];
      ConcatAppend(NonEmpty(ss), [s]);
      assert [s][..0] == [];
    }
  }

  /** The loop step of `WriteString`: the prefix `ss[..i + 1]` writes what
      `ss[..i]` writes, then `ss[i]`. */
  lemma ConcatNonEmptyPrefix(ss: seq<Bytes>, i: nat)
    requires i < |ss|
    ensures Concat(NonEmpty(ss[..i + 1])) == Concat(NonEmpty(ss[..i])) + ss[i]
  {
    assert ss[..i + 1] == ss[..i] + [ss[i]];
    ConcatNonEmptyStep(ss[..i], ss[i]);
  }

  /** Writing a single string writes exactly that string. */
  lemma ConcatNonEmptySingle(s: Bytes)
    ensures Concat(NonEmpty([s])) == s
  {
  }

  /** Skipping the empty strings does not change what is written. */
  lemma {:induction false} ConcatNonEmpty(ss: seq<Bytes>)
    ensures Concat(NonEmpty(ss)) == Concat(ss)
    decreases |ss|
  {
    if ss != [] {
      var init, last := ss[..|ss| - 1], ss[|ss| - 1];
      ConcatNonEmpty(init);
      assert init + [last] == ss;
      ConcatNonEmptyStep(init, last);
    }
  }

  /** A list made only of empty strings writes nothing. */
  lemma {:induction false} ConcatOfEmpties(ss: seq<Bytes>)
    requires forall i :: 0 <= i < |ss| ==> ss[i] == []
    ensures NonEmpty(ss) == [] && Concat(ss) == []
    decreases |ss|
  {
    if ss != [] {
      ConcatOfEmpties(ss[..|ss| - 1]);
    }
  }

  class LazyBuffer {
    /** The bytes accumulated so far. */
    var content: Bytes

    /** `var buf LazyBuffer`: the zero value is an empty buffer. */
    constructor ()
      ensures content == []
    {
      content := [];
    }

    /** `WriteString(ss...)`: appends every non-empty string of `ss`, in
        order, and returns the receiver. */
    static method WriteString(b: LazyBuffer?, ss: seq<Bytes>) returns (r: LazyBuffer?)
      modifies b
      ensures r == b
      ensures b != null ==> b.content == old(b.content) + Concat(NonEmpty(ss))
    {
      r := b;
      if b == null {
        return;
      }
      ghost var written: Bytes := [];
      var i := 0;
      while i < |ss|
        invariant 0 <= i <= |ss|
        invariant written == Concat(NonEmpty(ss[..i]))
        invariant b.content == old(b.content) + written
      {
        ConcatNonEmptyPrefix(ss, i);
        written := written + ss[i];
        if ss[i] != [] {
          b.content := b.content + ss[i];
        }
        i := i + 1;
      }
      assert ss[..|ss|] == ss;
    }

    /** `WriteRunes(rr...)`: appends the UTF-8 encoding of every rune of
        `rr`, in order, and returns the receiver. */
    static method WriteRunes(b: LazyBuffer?, rr: seq<int>) returns (r: LazyBuffer?)
      modifies b
      ensures r == b
      ensures b != null ==> b.content == old(b.content) + EncodeRunes(rr)
    {
      if b != null {
        var i := 0;
        while i < |rr|
          invariant 0 <= i <= |rr|
          invariant b.content == old(b.content) + EncodeRunes(rr[..i])
        {
          assert rr[..i + 1][..i] == rr[..i];
          b.content := b.content + RuneBytes(rr[i]);
          i := i + 1;
        }
        assert rr[..|rr|] == rr;
      }
      r := b;
    }

    /** `Printf(format, args...)`: appends `formatted`, the text `fmt`
        produces for the format and arguments, and returns the receiver. */
    static method Printf(b: LazyBuffer?, formatted: Bytes) returns (r: LazyBuffer?)
      modifies b
      ensures r == b
      ensures b != null ==> b.content == old(b.content) + formatted
    {
      if b != null {
        b.content := b.content + formatted;
      }
      r := b;
    }

    /** `String()`: the accumulated bytes; empty for a nil receiver. */
    static function String(b: LazyBuffer?): (s: Bytes)
      reads b
      ensures b == null ==> s == []
      ensures b != null ==> s == b.content
    {
      if b != null then b.content else []
    }

    /** `Len()`: the number of accumulated bytes; 0 for a nil receiver. */
    static function Len(b: LazyBuffer?): (n: int)
      reads b
      ensures n == |String(b)|
      ensures b == null ==> n == 0
    {
      if b != null then |b.content| else 0
    }

    /** `Reset()`: empties the buffer; nothing happens on a nil receiver. */
    static method Reset(b: LazyBuffer?)
      modifies b
      ensures b != null ==> b.content == []
    {
      if b != null {
        b.content := [];
      }
    }
  }

  /** The chain from the type's documentation: "Hello", ' ', "world",
      `Printf(", %d", 42)` and '!' give "Hello world, 42!". */
  method ChainedWrites() returns (output: Bytes)
    ensures output == Ascii("Hello world, 42!")
  {
    var buf := new LazyBuffer();
    var b := LazyBuffer.WriteString(buf, [Ascii("Hello")]);
    b := LazyBuffer.WriteRunes(b, [' ' as int]);
    b := LazyBuffer.WriteString(b, [Ascii("world")]);
    b := LazyBuffer.Printf(b, Ascii(", 42"));
    b := LazyBuffer.WriteRunes(b, ['!' as int]);
    output := LazyBuffer.String(b);
  }

  /** "Hello" is 5 bytes, and ' ', '世' and '界' add 1 + 3 + 3 more. */
  method LengthAfterUnicode() returns (afterHello: int, afterRunes: int)
    ensures afterHello == 5 && afterRunes == 12
  {
    var buf := new LazyBuffer();
    var b := LazyBuffer.WriteString(buf, [Ascii("Hello")]);
    afterHello := LazyBuffer.Len(b);
    var rr := [' ' as int, '世' as int, '界' as int];
    b := LazyBuffer.WriteRunes(b, rr);
    afterRunes := LazyBuffer.Len(b);
    EncodeRunesLength(rr);
    assert rr[..2] == [' ' as int, '世' as int] && rr[..2][..1] == [' ' as int];
    assert TotalWidth([' ' as int]) == 1 by { assert [' ' as int][..0] == []; }
    assert TotalWidth(rr[..2]) == 4;
  }

  /** Writing after `Reset` starts from an empty buffer. */
  method WriteAfterReset() returns (before: Bytes, after: Bytes)
    ensures before == Ascii("Hello world") && after == Ascii("New content")
  {
    ConcatNonEmptySingle(Ascii("Hello world"));
    ConcatNonEmptySingle(Ascii("New content"));
    var buf := new LazyBuffer();
    var b := LazyBuffer.WriteString(buf, [Ascii("Hello world")]);
    before := LazyBuffer.String(b);
    LazyBuffer.Reset(b);
    b := LazyBuffer.WriteString(b, [Ascii("New content")]);
    after := LazyBuffer.String(b);
  }

  /** On a nil receiver the writers return nil, `String` is empty and `Len`
      is 0. */
  method NilReceiver(ss: seq<Bytes>, rr: seq<int>, formatted: Bytes)
    returns (w: LazyBuffer?, s: Bytes, n: int)
    ensures w == null && s == [] && n == 0
  {
    w := LazyBuffer.WriteString(null, ss);
    w := LazyBuffer.WriteRunes(w, rr);
    w := LazyBuffer.Printf(w, formatted);
    LazyBuffer.Reset(w);
    s := LazyBuffer.String(w);
    n := LazyBuffer.Len(w);
  }
}
