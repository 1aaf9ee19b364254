/**
 The DER nesting walker of the certificate normaliser.

 `Walk` and `NestingDepth` follow the byte scanner octet by octet.  They are proved against an
 independent grammar: a `Forest` is a sequence of definite-length TLVs (identifier octets, length
 octets, value), `Encode` writes one out, and `Parse` is the functional reader that connects the two.
 The identifier and length forms are those of sections 8.1.2 and 8.1.3 of ITU-T X.690, with the
 indefinite form excluded and at most four subsequent length octets.
 */
module Der {
  import opened Prelude

  // ---------- The grammar ----------

  datatype Value = Primitive(octets: seq<Byte>) | Constructed(items: Forest)

  datatype Forest =
    | Nil
    | Cons(tag: seq<Byte>, len: seq<Byte>, value: Value, rest: Forest)

  function Encode(f: Forest): seq<Byte>
    decreases f, 0
  {
    match f
    case Nil => []
    case Cons(tag, len, value, rest) => tag + (len + (EncodeValue(value) + Encode(rest)))
  }

  function EncodeValue(v: Value): seq<Byte>
    decreases v, 1
  {
    match v
    case Primitive(octets) => octets
    case Constructed(items) => Encode(items)
  }

  /** Number of constructed encodings on the deepest path. */
  function Height(f: Forest): nat
  {
    match f
    case Nil => 0
    case Cons(_, _, Primitive(_), rest) => Height(rest)
    case Cons(_, _, Constructed(items), rest) => Max(1 + Height(items), Height(rest))
  }

  /** The leading identifier octets that announce further ones: all five low bits are set. */
  predicate HasLongTag(first: Byte) { first in {31, 63, 95, 127, 159, 191, 223, 255} }

  /** The leading identifier octets of constructed encodings, in the four classes. */
  predicate IsConstructedTag(first: Byte)
  {
    32 <= first < 64 || 96 <= first < 128 || 160 <= first < 192 || 224 <= first < 256
  }

  /** Identifier octets: one octet, or a leading octet followed by continuation octets and a last one. */
  predicate IsTag(tag: seq<Byte>)
  {
    && |tag| >= 1
    && (!HasLongTag(tag[0]) ==> |tag| == 1)
    && (HasLongTag(tag[0]) ==>
          && |tag| >= 2
          && tag[|tag| - 1] < 128
          && forall i :: 1 <= i < |tag| - 1 ==> tag[i] >= 128)
  }

  function BigEndian(s: seq<Byte>): nat
  {
    if s == [] then 0 else BigEndian(s[..|s| - 1]) * 256 + s[|s| - 1]
  }

  /** Definite length octets announcing a value of `n` octets. */
  predicate IsLength(len: seq<Byte>, n: nat)
  {
    || (|len| == 1 && len[0] < 128 && len[0] == n)
    || (2 <= |len| <= 5 && len[0] == 127 + |len| && BigEndian(len[1..]) == n)
  }

  predicate WellFormed(f: Forest)
  {
    match f
    case Nil => true
    case Cons(tag, len, value, rest) =>
      && IsTag(tag)
      && (value.Constructed? <==> IsConstructedTag(tag[0]))
      && IsLength(len, |EncodeValue(value)|)
      && (value.Constructed? ==> WellFormed(value.items))
      && WellFormed(rest)
  }

  // ---------- A functional reader for the grammar ----------

  /** Where the length octets, the value and the next encoding start. */
  datatype Header = Header(lengthStart: nat, start: nat, valueEnd: nat)

  /** The first octet at or after `i` without the continuation bit, or `end`. */
  function ContinuationEnd(data: seq<Byte>, i: nat, end: nat): (k: nat)
    requires i <= end <= |data|
    ensures i <= k <= end
    ensures forall j :: i <= j < k ==> data[j] >= 128
    ensures k < end ==> data[k] < 128
    decreases end - i
  {
    if i < end && data[i] >= 128 then ContinuationEnd(data, i + 1, end) else i
  }

  function TagEnd(data: seq<Byte>, offset: nat, end: nat): (k: nat)
    requires offset < end <= |data|
    ensures offset < k
  {
    if HasLongTag(data[offset]) then ContinuationEnd(data, offset + 1, end) + 1 else offset + 1
  }

  /** Where the length octets at `i` end, and the length they announce. */
  function LengthAt(data: seq<Byte>, i: nat, end: nat): (r: Option<(nat, nat)>)
    requires i < end <= |data|
    ensures r.Some? ==> i < r.value.0 <= end
  {
    if data[i] == 128 then None
    else if data[i] > 128 then
      var k := data[i] - 128;
      if k > 4 || i + 1 + k > end then None else Some((i + 1 + k, BigEndian(data[i + 1..i + 1 + k])))
    else Some((i + 1, data[i]))
  }

  function HeaderAt(data: seq<Byte>, offset: nat, end: nat): (h: Option<Header>)
    requires offset < end <= |data|
    ensures h.Some? ==> offset < h.value.lengthStart < h.value.start <= h.value.valueEnd <= end
  {
    var lengthStart := TagEnd(data, offset, end);
    if lengthStart >= end then None else
    match LengthAt(data, lengthStart, end)
    case None => None
    case Some((start, n)) => if start + n > end then None else Some(Header(lengthStart, start, start + n))
  }

  function ParseAt(data: seq<Byte>, offset: nat, end: nat): Option<Forest>
    requires offset <= end <= |data|
    decreases end - offset
  {
    if offset == end then Some(Nil) else
    match HeaderAt(data, offset, end)
    case None => None
    case Some(h) =>
      var rest := ParseAt(data, h.valueEnd, end);
      var tag, len := data[offset..h.lengthStart], data[h.lengthStart..h.start];
      if rest.None? then None
      else if !IsConstructedTag(data[offset]) then
        Some(Cons(tag, len, Primitive(data[h.start..h.valueEnd]), rest.value))
      else
        var items := ParseAt(data, h.start, h.valueEnd);
        if items.None? then None else Some(Cons(tag, len, Constructed(items.value), rest.value))
  }

  lemma TagSound(data: seq<Byte>, offset: nat, end: nat)
    requires offset < end <= |data| && TagEnd(data, offset, end) < end
    ensures IsTag(data[offset..TagEnd(data, offset, end)])
  {
  }

  lemma LengthSound(data: seq<Byte>, i: nat, end: nat)
    requires i < end <= |data| && LengthAt(data, i, end).Some?
    ensures IsLength(data[i..LengthAt(data, i, end).value.0], LengthAt(data, i, end).value.1)
  {
    var start := LengthAt(data, i, end).value.0;
    assert data[i..start][1..] == data[i + 1..start];
  }

  /** Whatever the reader accepts is an encoding, of exactly the tree it returns. */
  lemma {:induction false} ParseSound(data: seq<Byte>, offset: nat, end: nat)
    requires offset <= end <= |data| && ParseAt(data, offset, end).Some?
    ensures WellFormed(ParseAt(data, offset, end).value)
    ensures Encode(ParseAt(data, offset, end).value) == data[offset..end]
    decreases end - offset
  {
    if offset < end {
      var h := HeaderAt(data, offset, end).value;
      TagSound(data, offset, end);
      LengthSound(data, h.lengthStart, end);
      ParseSound(data, h.valueEnd, end);
      if IsConstructedTag(data[offset]) {
        ParseSound(data, h.start, h.valueEnd);
      }
      JoinSlices(data, h.start, h.valueEnd, end);
      JoinSlices(data, h.lengthStart, h.start, end);
      JoinSlices(data, offset, h.lengthStart, end);
    }
  }

  lemma {:induction false} ContinuationEndComplete(data: seq<Byte>, i: nat, k: nat, end: nat)
    requires i <= k < end <= |data|
    requires data[k] < 128 && forall j :: i <= j < k ==> data[j] >= 128
    ensures ContinuationEnd(data, i, end) == k
    decreases k - i
  {
    if i < k {
      ContinuationEndComplete(data, i + 1, k, end);
    }
  }

  lemma TagComplete(data: seq<Byte>, offset: nat, k: nat, end: nat)
    requires offset <= k <= end <= |data| && IsTag(data[offset..k])
    ensures TagEnd(data, offset, end) == k
  {
    var tag := data[offset..k];
    assert forall j :: 0 <= j < |tag| ==> tag[j] == data[offset + j];
    if HasLongTag(tag[0]) {
      assert forall j :: offset + 1 <= j < k - 1 ==> data[j] == tag[j - offset];
      ContinuationEndComplete(data, offset + 1, k - 1, end);
    }
  }

  lemma LengthComplete(data: seq<Byte>, i: nat, k: nat, n: nat, end: nat)
    requires i < k <= end <= |data| && IsLength(data[i..k], n)
    ensures LengthAt(data, i, end) == Some((k, n))
  {
    assert data[i..k][1..] == data[i + 1..k];
  }

  /** The header of an encoding is recognised, with the value and the rest where they stand. */
  lemma HeaderComplete(tag: seq<Byte>, len: seq<Byte>, v: seq<Byte>, r: seq<Byte>,
                       data: seq<Byte>, offset: nat, end: nat) returns (h: Header)
    requires offset <= end <= |data| && data[offset..end] == tag + (len + (v + r))
    requires IsTag(tag) && IsLength(len, |v|)
    ensures offset < end && HeaderAt(data, offset, end) == Some(h)
    ensures tag == data[offset..h.lengthStart] && len == data[h.lengthStart..h.start]
    ensures v == data[h.start..h.valueEnd] && r == data[h.valueEnd..end]
  {
    ConcatAt(tag, len + (v + r), data, offset, end);
    var i := offset + |tag|;
    ConcatAt(len, v + r, data, i, end);
    var j := i + |len|;
    ConcatAt(v, r, data, j, end);
    TagComplete(data, offset, i, end);
    LengthComplete(data, i, j, |v|, end);
    h := Header(i, j, j + |v|);
  }

  /** Every encoded tree is read back, wherever it stands. */
  lemma {:induction false} ParseComplete(f: Forest, data: seq<Byte>, offset: nat, end: nat)
    requires WellFormed(f) && offset <= end <= |data| && data[offset..end] == Encode(f)
    ensures ParseAt(data, offset, end) == Some(f)
  {
    match f
    case Nil =>
    case Cons(tag, len, value, rest) =>
      var h := HeaderComplete(tag, len, EncodeValue(value), Encode(rest), data, offset, end);
      assert data[offset..h.lengthStart][0] == data[offset];
      ParseComplete(rest, data, h.valueEnd, end);
      if value.Constructed? {
        ParseComplete(value.items, data, h.start, h.valueEnd);
      }
  }

  /** The grammar is unambiguous: the octets determine the tree, hence its height. */
  lemma EncodeInjective(f: Forest, g: Forest)
    requires WellFormed(f) && WellFormed(g) && Encode(f) == Encode(g)
    ensures f == g
  {
    var data := Encode(f);
    assert data[0..|data|] == data;
    ParseComplete(f, data, 0, |data|);
    ParseComplete(g, data, 0, |data|);
  }

  // ---------- The scanner ----------

  /** The value the scanner owes at nesting level `depth` for octets that read as `parsed`. */
  function CappedDepth(parsed: Option<Forest>, depth: nat, maxDepth: int): int
  {
    if depth > maxDepth then depth else
    match parsed
    case Some(f) => Min(depth + Height(f), maxDepth + 1)
    case None => maxDepth + 1
  }

  /** The bit tests of the scanner. */
  method TestLongTag(tag: Byte) returns (long: bool)
    ensures long <==> HasLongTag(tag)
  {
    long := tag % 32 == 31;
  }

  method TestConstructed(tag: Byte) returns (constructed: bool)
    ensures constructed <==> IsConstructedTag(tag)
  {
    constructed := (tag / 32) % 2 == 1;
  }

  method SkipTag(data: seq<Byte>, offset: nat, end: nat) returns (cursor: nat)
    requires offset < end <= |data|
    ensures cursor == TagEnd(data, offset, end)
  {
    var tag := data[offset];
    cursor := offset + 1;
    var long := TestLongTag(tag);
    if long {
      while cursor < end && data[cursor] >= 128
        invariant offset + 1 <= cursor <= end
        invariant ContinuationEnd(data, offset + 1, end) == ContinuationEnd(data, cursor, end)
      {
        cursor := cursor + 1;
      }
      cursor := cursor + 1;
    }
  }

  method FromBytesBig(data: seq<Byte>, offset: nat, count: nat) returns (n: nat)
    requires offset + count <= |data|
    ensures n == BigEndian(data[offset..offset + count])
  {
    n := 0;
    for i := 0 to count
      invariant n == BigEndian(data[offset..offset + i])
    {
      assert data[offset..offset + i + 1][..i] == data[offset..offset + i];
      n := n * 256 + data[offset + i];
    }
  }

  /** Reads the identifier and length octets at `offset`; fails on every malformed or overlong header. */
  method ScanHeader(data: seq<Byte>, offset: nat, end: nat) returns (ok: bool, start: nat, valueEnd: nat)
    requires offset < end <= |data|
    ensures ok <==> HeaderAt(data, offset, end).Some?
    ensures ok ==> && HeaderAt(data, offset, end).value.start == start
                   && HeaderAt(data, offset, end).value.valueEnd == valueEnd
  {
    var cursor := SkipTag(data, offset, end);
    if cursor >= end {
      return false, cursor, cursor;
    }
    var first := data[cursor];
    cursor := cursor + 1;
    if first == 128 {
      return false, cursor, cursor;
    }
    var length := first;
    if first > 128 {
      var lengthBytes := first - 128;
      if lengthBytes == 0 || lengthBytes > 4 || cursor + lengthBytes > end {
        return false, cursor, cursor;
      }
      length := FromBytesBig(data, cursor, lengthBytes);
      cursor := cursor + lengthBytes;
    }
    start, valueEnd := cursor, cursor + length;
    ok := valueEnd <= end;
  }

  lemma CappedDepthRange(parsed: Option<Forest>, depth: nat, maxDepth: int)
    requires depth <= maxDepth + 1
    ensures depth <= CappedDepth(parsed, depth, maxDepth) <= maxDepth + 1
  {
  }

  method Walk(data: seq<Byte>, offset: nat, end: nat, depth: nat, maxDepth: int) returns (r: int)
    requires offset <= end <= |data|
    ensures r == CappedDepth(ParseAt(data, offset, end), depth, maxDepth)
    decreases end - offset
  {
    if depth > maxDepth {
      return depth;
    }
    ghost var goal := CappedDepth(ParseAt(data, offset, end), depth, maxDepth);
    CappedDepthRange(ParseAt(data, offset, end), depth, maxDepth);
    var deepest: int := depth;
    var cursor := offset;
    while cursor < end
      invariant offset <= cursor <= end
      invariant depth <= deepest <= maxDepth
      invariant goal == Max(deepest, CappedDepth(ParseAt(data, cursor, end), depth, maxDepth))
    {
      var tag := data[cursor];
      var ok, start, valueEnd := ScanHeader(data, cursor, end);
      if !ok {
        return maxDepth + 1;
      }
      CappedDepthRange(ParseAt(data, valueEnd, end), depth, maxDepth);
      var constructed := TestConstructed(tag);
      if constructed {
        var inner := Walk(data, start, valueEnd, depth + 1, maxDepth);
        CappedDepthRange(ParseAt(data, start, valueEnd), depth + 1, maxDepth);
        deepest := Max(deepest, inner);
        if deepest > maxDepth {
          return deepest;
        }
      }
      cursor := valueEnd;
    }
    return deepest;
  }

  /**
   The result is within `0..maxDepth + 1`; it is at most the cap exactly for the octets that encode a
   forest no higher than the cap, and it is then that forest's height.
   */
  method NestingDepth(data: seq<Byte>, maxDepth: int) returns (r: int)
    ensures maxDepth < 0 ==> r == 0
    ensures maxDepth >= 0 ==> 0 <= r <= maxDepth + 1
    ensures maxDepth >= 0 ==>
              (r <= maxDepth <==>
               exists f :: WellFormed(f) && Encode(f) == data && Height(f) <= maxDepth)
    ensures maxDepth >= 0 ==>
              forall f :: WellFormed(f) && Encode(f) == data ==> r == Min(Height(f), maxDepth + 1)
  {
    if data == [] {
      r := 0;
    } else {
      r := Walk(data, 0, |data|, 0, maxDepth);
    }
    if maxDepth >= 0 {
      DepthMeaning(data, maxDepth);
    }
  }

  lemma DepthMeaning(data: seq<Byte>, maxDepth: nat)
    ensures var r := CappedDepth(ParseAt(data, 0, |data|), 0, maxDepth);
            && (r <= maxDepth <==>
                exists f :: WellFormed(f) && Encode(f) == data && Height(f) <= maxDepth)
            && forall f :: WellFormed(f) && Encode(f) == data ==> r == Min(Height(f), maxDepth + 1)
  {
    assert data[0..|data|] == data;
    forall f | WellFormed(f) && Encode(f) == data
      ensures ParseAt(data, 0, |data|) == Some(f)
    {
      ParseComplete(f, data, 0, |data|);
    }
    if ParseAt(data, 0, |data|).Some? {
      ParseSound(data, 0, |data|);
    }
  }

  // ---------- The grammar octet by octet ----------

  /** 48 introduces a SEQUENCE: wrapping a forest in one adds one level; of siblings the higher one counts. */
  lemma SequenceAddsALevel(f: Forest, n: Byte, rest: Forest)
    requires WellFormed(f) && |Encode(f)| == n < 128 && WellFormed(rest)
    ensures var g := Cons([48], [n], Constructed(f), rest);
            && WellFormed(g) && Encode(g) == [48, n] + Encode(f) + Encode(rest)
            && Height(g) == if Height(f) + 1 >= Height(rest) then Height(f) + 1 else Height(rest)
  {
    var g := Cons([48], [n], Constructed(f), rest);
    assert Encode(g) == [48] + ([n] + (EncodeValue(Constructed(f)) + Encode(rest)));
  }

  /** 4 introduces an OCTET STRING: whatever it holds is not looked into. */
  lemma OctetStringAddsNone(octets: seq<Byte>, n: Byte, rest: Forest)
    requires |octets| == n < 128 && WellFormed(rest)
    ensures var g := Cons([4], [n], Primitive(octets), rest);
            WellFormed(g) && Encode(g) == [4, n] + octets + Encode(rest) && Height(g) == Height(rest)
  {
    var g := Cons([4], [n], Primitive(octets), rest);
    assert Encode(g) == [4] + ([n] + (EncodeValue(Primitive(octets)) + Encode(rest)));
  }

  lemma BigEndianTwo(a: Byte, b: Byte)
    ensures BigEndian([a]) == a && BigEndian([a, b]) == 256 * a + b
  {
    assert [a, b][..1] == [a] && [a][..0] == [];
  }

  lemma BigEndianFour(a: Byte, b: Byte, c: Byte, d: Byte)
    ensures BigEndian([a, b, c]) == 65536 * a + 256 * b + c
    ensures BigEndian([a, b, c, d]) == 16777216 * a + 65536 * b + 256 * c + d
  {
    BigEndianTwo(a, b);
    assert [a, b, c][..2] == [a, b] && [a, b, c, d][..3] == [a, b, c];
  }

  /** One octet up to 127, or 129 to 132 and as many octets as that says; nothing else announces a length. */
  lemma LengthForms(a: Byte, b: Byte, c: Byte, d: Byte, n: nat)
    ensures IsLength([a], n) <==> a < 128 && n == a
    ensures IsLength([129, a], n) <==> n == a
    ensures IsLength([130, a, b], n) <==> n == 256 * a + b
    ensures IsLength([131, a, b, c], n) <==> n == 65536 * a + 256 * b + c
    ensures IsLength([132, a, b, c, d], n) <==> n == 16777216 * a + 65536 * b + 256 * c + d
  {
    BigEndianTwo(a, b);
    BigEndianFour(a, b, c, d);
    assert [129, a][1..] == [a] && [130, a, b][1..] == [a, b];
    assert [131, a, b, c][1..] == [a, b, c] && [132, a, b, c, d][1..] == [a, b, c, d];
  }

  lemma OtherLengths(len: seq<Byte>, n: nat)
    requires len == [] || len[0] == 128 || len[0] > 132 || |len| != (if len[0] < 128 then 1 else len[0] - 127)
    ensures !IsLength(len, n)
  {
  }

  /** Identifiers: 31 and its like take octets of 128 and more up to a last one below; others stand alone. */
  lemma TagForms(a: Byte, b: Byte, c: Byte)
    ensures IsTag([a]) <==> a !in {31, 63, 95, 127, 159, 191, 223, 255}
    ensures IsTag([a, b]) <==> a in {31, 63, 95, 127, 159, 191, 223, 255} && b < 128
    ensures IsTag([a, b, c]) <==> a in {31, 63, 95, 127, 159, 191, 223, 255} && b >= 128 && c < 128
  {
    assert [a, b, c][1] == b && [a, b, c][2] == c;
  }

  /** The scanner on two nested SEQUENCEs, and on the same octets inside an OCTET STRING. */
  method NestedExample() returns (nested: int, hidden: int)
    ensures nested == 2 && hidden == 0
  {
    var inner := [48, 0];
    nested := NestingDepth([48, 2] + inner, 16);
    hidden := NestingDepth([4, 2] + inner, 16);
    SequenceAddsALevel(Nil, 0, Nil);
    SequenceAddsALevel(Cons([48], [0], Constructed(Nil), Nil), 2, Nil);
    OctetStringAddsNone(inner, 2, Nil);
  }

  // ---------- The gate in front of the X.509 parser ----------

  const MAX_CERTIFICATE_DER_BYTES := 65536
  const MAX_ASN1_DEPTH := 16

  datatype Gate = TooLarge | TooDeep | Parsable

  /** Bytes reach the X.509 parser exactly when they are small enough and encode a shallow forest. */
  method CertificateGate(payload: seq<Byte>) returns (g: Gate)
    ensures g == TooLarge <==> |payload| > 65536
    ensures g == Parsable <==>
            |payload| <= 65536 && exists f :: WellFormed(f) && Encode(f) == payload && Height(f) <= 16
  {
    if |payload| > MAX_CERTIFICATE_DER_BYTES {
      return TooLarge;
    }
    var depth := NestingDepth(payload, MAX_ASN1_DEPTH);
    g := if depth > MAX_ASN1_DEPTH then TooDeep else Parsable;
  }
}
