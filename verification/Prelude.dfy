/** Small definitions shared by every module. */
module Prelude {
  datatype Option<+T> = None | Some(value: T)

  datatype Result<+T, +E> = Ok(value: T) | Err(error: E)

  function OrEmpty(s: Option<string>): string { if s.Some? then s.value else "" }

  type Byte = x: int | 0 <= x < 256

  type Bytes = seq<Byte>

  type Id = string

  predicate IsAlnum(c: char) { '0' <= c <= '9' || 'A' <= c <= 'Z' || 'a' <= c <= 'z' }

  /** One to 160 letters, digits, dots, underscores and dashes, starting with a letter or digit. */
  predicate ValidId(id: string)
  {
    && 1 <= |id| <= 160
    && IsAlnum(id[0])
    && forall i :: 1 <= i < |id| ==> IsAlnum(id[i]) || id[i] in "._-"
  }

  /** An identifier by its characters: no empty one, and nothing but these. */
  lemma IdCharacters(id: string, i: nat)
    requires i < |id|
    ensures ValidId(id) ==>
              var c := id[i] as int;
              || 48 <= c <= 57 || 65 <= c <= 90 || 97 <= c <= 122
              || (i > 0 && (c == 45 || c == 46 || c == 95))
    ensures !ValidId("")
    ensures |id| > 160 ==> !ValidId(id)
  {
    assert forall c :: c in "._-" ==> c as int == 45 || c as int == 46 || c as int == 95;
  }

  /** And conversely. */
  lemma IdsByCharacters(id: string)
    requires 1 <= |id| <= 160 && id[0] as int !in {45, 46, 95}
    requires forall i :: 0 <= i < |id| ==>
               var c := id[i] as int;
               48 <= c <= 57 || 65 <= c <= 90 || 97 <= c <= 122 || c == 45 || c == 46 || c == 95
    ensures ValidId(id)
  {
    assert "._-"[0] == 46 as char && "._-"[1] == 95 as char && "._-"[2] == 45 as char;
  }

  function Max(a: int, b: int): int { if a >= b then a else b }

  function Min(a: int, b: int): int { if a <= b then a else b }

  lemma JoinSlices<T>(s: seq<T>, a: nat, b: nat, c: nat)
    requires a <= b <= c <= |s|
    ensures s[a..b] + s[b..c] == s[a..c]
  {
  }

  lemma TakeNext<T>(s: seq<T>, n: nat)
    requires n < |s|
    ensures s[..n + 1] == s[..n] + [s[n]]
    ensures n + 1 == |s| ==> s == s[..n] + [s[n]]
  {
  }

  /** The two halves of a slice are slices. */
  lemma ConcatAt<T>(x: seq<T>, y: seq<T>, s: seq<T>, a: nat, b: nat)
    requires a <= b <= |s| && s[a..b] == x + y
    ensures a + |x| <= b && x == s[a..a + |x|] && y == s[a + |x|..b]
  {
    assert |s[a..b]| == |x| + |y|;
    assert x == (x + y)[..|x|] && y == (x + y)[|x|..];
  }

  lemma UpdateKeys<K, V>(m: map<K, V>, k: K, v: V)
    ensures m[k := v].Keys == m.Keys + {k}
    ensures |m[k := v]| == |m.Keys + {k}|
    ensures k in m ==> |m[k := v]| == |m|
    ensures k !in m ==> |m[k := v]| == |m| + 1
  {
    assert m[k := v].Keys == m.Keys + {k};
    assert |m[k := v]| == |m[k := v].Keys|;
    assert k in m ==> m.Keys + {k} == m.Keys;
  }

  lemma MapsEqual<K, V>(m: map<K, V>, n: map<K, V>)
    requires m.Keys == n.Keys && forall k :: k in m ==> m[k] == n[k]
    ensures m == n
  {
  }
}
