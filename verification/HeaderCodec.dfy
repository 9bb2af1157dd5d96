/** The connection header: a map of strings written as length-prefixed `key=value` lines. */
module HeaderCodec {
  import opened Bytes
  import opened Ordering

  const EQUALS: byte := 61

  const MAX_LINE: nat := 1000000

  function Line(key: Str, value: Str): Str {
    key + [EQUALS] + value
  }

  function EncodeLine(line: Str): seq<byte>
    requires |line| < TWO_TO_32
  {
    Le32(|line|) + line
  }

  /** Every line's length fits its 4-byte prefix. */
  ghost predicate LinesFit(m: map<Str, Str>) {
    forall k | k in m :: |Line(k, m[k])| < TWO_TO_32
  }

  predicate KeysFit(m: map<Str, Str>, keys: seq<Str>) {
    forall k | k in keys :: k in m && |Line(k, m[k])| < TWO_TO_32
  }

  function EncodeLines(m: map<Str, Str>, keys: seq<Str>): seq<byte>
    requires KeysFit(m, keys)
  {
    if keys == [] then [] else EncodeLine(Line(keys[0], m[keys[0]])) + EncodeLines(m, keys[1..])
  }

  lemma SortedKeys(m: map<Str, Str>)
    ensures forall k :: k in Sorted(m.Keys) <==> k in m
  {
    SortedIs(m.Keys);
  }

  ghost function Encode(m: map<Str, Str>): seq<byte>
    requires LinesFit(m)
  {
    SortedKeys(m);
    EncodeLines(m, Sorted(m.Keys))
  }

  // ---------------------------------------------------------------- parsing

  /** find_first_of("="): the position, or the length if there is none. */
  function FirstEquals(line: Str): (p: nat)
    ensures p <= |line|
    ensures p < |line| ==> line[p] == EQUALS
    ensures EQUALS !in line[..p]
  {
    if line == [] then 0 else
    if line[0] == EQUALS then 0 else
    var p := 1 + FirstEquals(line[1..]);
    assert line[..p] == [line[0]] + line[1..][..p - 1];
    p
  }

  /** The result and the map after parsing; on failure the lines before the bad one have been stored. */
  function Parse(b: seq<byte>, m: map<Str, Str>): (bool, map<Str, Str>)
    requires InBounds(b)
    decreases |b|
  {
    if b == [] then (true, m) else
    var len := FromLe32(b[..4]);
    if len > MAX_LINE then (false, m) else
    var line := b[4..4 + len];
    var p := FirstEquals(line);
    if p == |line| then (false, m) else
    Parse(b[4 + len..], m[line[..p] := line[p + 1..]])
  }

  /** The parser never looks beyond the end of the buffer. */
  predicate InBounds(b: seq<byte>)
    decreases |b|
  {
    b == [] ||
    (|b| >= 4 &&
     var len := FromLe32(b[..4]);
     len > MAX_LINE || (4 + len <= |b| && (FirstEquals(b[4..4 + len]) == len || InBounds(b[4 + len..]))))
  }

  lemma FirstEqualsIs(key: Str, value: Str)
    requires EQUALS !in key
    ensures FirstEquals(Line(key, value)) == |key|
  {
    var line, p := Line(key, value), FirstEquals(Line(key, value));
    assert line[|key|] == EQUALS;
    assert forall i | 0 <= i < p :: line[i] == line[..p][i] != EQUALS;
    assert forall i | 0 <= i < |key| :: line[i] == key[i];
  }

  lemma EncodeLineFront(line: Str, tail: seq<byte>)
    requires |line| < TWO_TO_32
    ensures var b := EncodeLine(line) + tail;
            && |b| >= 4 + |line| && FromLe32(b[..4]) == |line|
            && b[4..4 + |line|] == line && b[4 + |line|..] == tail
  {
    DecodeEncode32(|line|);
    assert (EncodeLine(line) + tail)[..4] == Le32(|line|);
  }

  lemma LineHasEquals(key: Str, value: Str)
    ensures FirstEquals(Line(key, value)) < |Line(key, value)|
  {
    var line, p := Line(key, value), FirstEquals(Line(key, value));
    assert line[|key|] == EQUALS;
    assert forall i | 0 <= i < p :: line[i] == line[..p][i] != EQUALS;
  }

  predicate GoodEntry(key: Str, value: Str) {
    EQUALS !in key && |Line(key, value)| <= MAX_LINE
  }

  ghost predicate GoodMap(m: map<Str, Str>) {
    forall k | k in m :: GoodEntry(k, m[k])
  }

  /** `base` with the entries of m for `keys` stored in turn. */
  function StoreAll(base: map<Str, Str>, m: map<Str, Str>, keys: seq<Str>): map<Str, Str>
    requires forall k | k in keys :: k in m
    decreases |keys|
  {
    if keys == [] then base else StoreAll(base[keys[0] := m[keys[0]]], m, keys[1..])
  }

  lemma {:induction false} StoreAllIs(base: map<Str, Str>, m: map<Str, Str>, keys: seq<Str>)
    requires forall k | k in keys :: k in m
    ensures var r := StoreAll(base, m, keys);
            && (forall k :: k in r <==> k in base || k in keys)
            && (forall k | k in r :: r[k] == if k in keys then m[k] else base[k])
    decreases |keys|
  {
    if keys != [] {
      StoreAllIs(base[keys[0] := m[keys[0]]], m, keys[1..]);
      assert keys == [keys[0]] + keys[1..];
    }
  }

  lemma StoreSorted(base: map<Str, Str>, m: map<Str, Str>)
    ensures forall k | k in Sorted(m.Keys) :: k in m
    ensures StoreAll(base, m, Sorted(m.Keys)) == base + m
  {
    SortedKeys(m);
    StoreAllIs(base, m, Sorted(m.Keys));
  }

  lemma {:induction false} ParseLines(m: map<Str, Str>, keys: seq<Str>, tail: seq<byte>, base: map<Str, Str>)
    requires KeysFit(m, keys) && forall k | k in keys :: GoodEntry(k, m[k])
    requires InBounds(tail)
    ensures InBounds(EncodeLines(m, keys) + tail)
    ensures Parse(EncodeLines(m, keys) + tail, base) == Parse(tail, StoreAll(base, m, keys))
    decreases |keys|
  {
    if keys == [] {
      assert EncodeLines(m, keys) + tail == tail;
    } else {
      var k := keys[0];
      var rest := EncodeLines(m, keys[1..]) + tail;
      ConcatAssociative(EncodeLine(Line(k, m[k])), EncodeLines(m, keys[1..]), tail);
      ParseLines(m, keys[1..], tail, base[k := m[k]]);
      ParseLine(k, m[k], rest, base);
      hide Parse, InBounds, EncodeLine, Line, GoodEntry;
    }
  }

  lemma ParseLine(key: Str, value: Str, rest: seq<byte>, base: map<Str, Str>)
    requires GoodEntry(key, value) && InBounds(rest)
    ensures InBounds(EncodeLine(Line(key, value)) + rest)
    ensures Parse(EncodeLine(Line(key, value)) + rest, base) == Parse(rest, base[key := value])
  {
    var line := Line(key, value);
    EncodeLineFront(line, rest);
    FirstEqualsIs(key, value);
    assert line[..|key|] == key && line[|key| + 1..] == value;
    hide EncodeLine, FirstEquals, FromLe32;
  }

  /** Parsing what was written, on top of anything and followed by anything, stores exactly the map. */
  lemma ParseEncode(m: map<Str, Str>, tail: seq<byte>, base: map<Str, Str>)
    requires GoodMap(m) && InBounds(tail)
    ensures LinesFit(m) && InBounds(Encode(m) + tail)
    ensures Parse(Encode(m) + tail, base) == Parse(tail, base + m)
  {
    SortedKeys(m);
    ParseLines(m, Sorted(m.Keys), tail, base);
    StoreSorted(base, m);
  }

  /** Two headers parsed one after the other: the second overrides the first. */
  lemma SecondOverrides(m1: map<Str, Str>, m2: map<Str, Str>)
    requires GoodMap(m1) && GoodMap(m2)
    ensures LinesFit(m1) && LinesFit(m2) && InBounds(Encode(m1) + Encode(m2))
    ensures Parse(Encode(m1) + Encode(m2), map[]) == (true, m1 + m2)
  {
    ParseEncodeAll(m2, map[] + m1);
    ParseEncode(m1, Encode(m2), map[]);
    hide Parse, InBounds, Encode;
    assert map[] + m1 == m1;
  }

  lemma ParseEncodeAll(m: map<Str, Str>, base: map<Str, Str>)
    requires GoodMap(m)
    ensures LinesFit(m) && InBounds(Encode(m)) && Parse(Encode(m), base) == (true, base + m)
  {
    ParseEmpty(base + m);
    ParseEncode(m, [], base);
    hide Parse, InBounds, Encode;
    assert Encode(m) + [] == Encode(m);
  }

  lemma ParseEmpty(m: map<Str, Str>)
    ensures InBounds([]) && Parse([], m) == (true, m)
  {
  }

  // ---------------------------------------------------------------- lines that were not written here

  /** Any line at the front of a buffer: it is refused iff it is too long or has no '='; otherwise it is stored
      under what stands before its first '='. What was stored before stays. */
  lemma ParseAny(line: Str, rest: seq<byte>, base: map<Str, Str>)
    requires |line| < TWO_TO_32 && InBounds(rest)
    ensures InBounds(EncodeLine(line) + rest)
    ensures |line| > MAX_LINE || EQUALS !in line ==> Parse(EncodeLine(line) + rest, base) == (false, base)
    ensures forall key, value | line == Line(key, value) && EQUALS !in key && |line| <= MAX_LINE ::
              Parse(EncodeLine(line) + rest, base) == Parse(rest, base[key := value])
  {
    EncodeLineFront(line, rest);
    var p := FirstEquals(line);
    if p == |line| {
      assert line[..p] == line;
    }
    hide EncodeLine, FromLe32;
    forall key, value | line == Line(key, value) && EQUALS !in key && |line| <= MAX_LINE
      ensures Parse(EncodeLine(line) + rest, base) == Parse(rest, base[key := value])
    {
      FirstEqualsIs(key, value);
      assert line[..|key|] == key && line[|key| + 1..] == value;
      hide FirstEquals;
    }
  }

  // ---------------------------------------------------------------- exactly when the round trip works

  lemma {:induction false} EncodedInBounds(m: map<Str, Str>, keys: seq<Str>)
    requires KeysFit(m, keys)
    ensures InBounds(EncodeLines(m, keys))
  {
    if keys != [] {
      EncodeLineFront(Line(keys[0], m[keys[0]]), EncodeLines(m, keys[1..]));
      EncodedInBounds(m, keys[1..]);
    }
  }

  ghost predicate PlainKeys(m: map<Str, Str>) {
    forall k | k in m :: EQUALS !in k
  }

  lemma {:induction false} ParsedKeysPlain(b: seq<byte>, m: map<Str, Str>)
    requires InBounds(b) && PlainKeys(m)
    ensures PlainKeys(Parse(b, m).1)
    decreases |b|
  {
    if b != [] {
      var len := FromLe32(b[..4]);
      if len <= MAX_LINE {
        var line := b[4..4 + len];
        var p := FirstEquals(line);
        if p < |line| {
          ParsedKeysPlain(b[4 + len..], m[line[..p] := line[p + 1..]]);
        }
      }
    }
  }

  /** One written line, whatever its key and length, at the front of the buffer. */
  lemma ParseWritten(key: Str, value: Str, rest: seq<byte>, base: map<Str, Str>)
    requires |Line(key, value)| < TWO_TO_32 && InBounds(rest)
    ensures var line, p := Line(key, value), FirstEquals(Line(key, value));
            && p < |line|
            && InBounds(EncodeLine(line) + rest)
            && Parse(EncodeLine(line) + rest, base) ==
                 if |line| > MAX_LINE then (false, base) else Parse(rest, base[line[..p] := line[p + 1..]])
  {
    EncodeLineFront(Line(key, value), rest);
    LineHasEquals(key, value);
    hide EncodeLine, FirstEquals, FromLe32, Line;
  }

  lemma {:induction false} LongLineFails(m: map<Str, Str>, keys: seq<Str>, k: Str, base: map<Str, Str>)
    requires KeysFit(m, keys)
    requires k in keys && |Line(k, m[k])| > MAX_LINE
    ensures InBounds(EncodeLines(m, keys)) && !Parse(EncodeLines(m, keys), base).0
  {
    hide Parse, InBounds, EncodeLine, Line, FirstEquals;
    var first := keys[0];
    EncodedInBounds(m, keys);
    EncodedInBounds(m, keys[1..]);
    ParseWritten(first, m[first], EncodeLines(m, keys[1..]), base);
    var line, p := Line(first, m[first]), FirstEquals(Line(first, m[first]));
    if |line| <= MAX_LINE {
      LongLineFails(m, keys[1..], k, base[line[..p] := line[p + 1..]]);
    }
  }

  /** A fresh header reads back what was written if and only if no key contains '=' and no entry is
      longer than 1000000 bytes. Values may contain '='. */
  lemma RoundTripExact(m: map<Str, Str>)
    requires LinesFit(m)
    ensures InBounds(Encode(m))
    ensures Parse(Encode(m), map[]) == (true, m) <==> GoodMap(m)
  {
    SortedKeys(m);
    EncodedInBounds(m, Sorted(m.Keys));
    if GoodMap(m) {
      ParseEncodeAll(m, map[]);
      assert map[] + m == m;
    } else {
      BadMapFails(m);
    }
    hide Parse, InBounds, Encode;
  }

  lemma BadMapFails(m: map<Str, Str>)
    requires LinesFit(m) && InBounds(Encode(m)) && !GoodMap(m)
    ensures Parse(Encode(m), map[]) != (true, m)
  {
    SortedKeys(m);
    hide Parse, InBounds;
    var k :| k in m && !GoodEntry(k, m[k]);
    if EQUALS in k {
      ParsedKeysPlain(Encode(m), map[]);
    } else {
      LongLineFails(m, Sorted(m.Keys), k, map[]);
    }
  }

  // ---------------------------------------------------------------- the imperative code

  function TotalSize(m: map<Str, Str>, keys: seq<Str>): nat
    requires forall k | k in keys :: k in m
  {
    if keys == [] then 0 else |keys[0]| + |m[keys[0]]| + 1 + 4 + TotalSize(m, keys[1..])
  }

  lemma {:induction false} EncodeLinesSize(m: map<Str, Str>, keys: seq<Str>)
    requires KeysFit(m, keys)
    ensures |EncodeLines(m, keys)| == TotalSize(m, keys)
  {
    if keys != [] {
      EncodeLinesSize(m, keys[1..]);
    }
  }

  lemma {:induction false} LinesFitTotal(m: map<Str, Str>, keys: seq<Str>)
    requires forall k | k in keys :: k in m
    requires TotalSize(m, keys) < TWO_TO_32
    ensures forall k | k in keys :: |Line(k, m[k])| < TWO_TO_32
  {
    if keys != [] {
      LinesFitTotal(m, keys[1..]);
      assert keys == [keys[0]] + keys[1..];
    }
  }

  /** memcpy into a buffer. */
  method CopyInto(buffer: array<byte>, ptr: nat, data: seq<byte>)
    requires ptr + |data| <= buffer.Length
    modifies buffer
    ensures buffer[..] == Splice(old(buffer[..]), ptr, data)
  {
    forall i | 0 <= i < |data| {
      buffer[ptr + i] := data[i];
    }
    assert buffer[..] == Splice(old(buffer[..]), ptr, data);
  }

  /** Append to the part of the buffer already written. */
  method Append(buffer: array<byte>, ptr: nat, data: seq<byte>) returns (end: nat)
    requires ptr + |data| <= buffer.Length
    modifies buffer
    ensures end == ptr + |data| && buffer[..end] == old(buffer[..ptr]) + data
  {
    CopyInto(buffer, ptr, data);
    end := ptr + |data|;
    assert buffer[..end] == buffer[..][..end];
    assert old(buffer[..ptr]) == old(buffer[..])[..ptr];
  }

  method AppendLine(buffer: array<byte>, ptr: nat, key: Str, value: Str) returns (end: nat)
    requires |Line(key, value)| < TWO_TO_32 && ptr + 4 + |Line(key, value)| <= buffer.Length
    modifies buffer
    ensures end == ptr + 4 + |Line(key, value)| && buffer[..end] == old(buffer[..ptr]) + EncodeLine(Line(key, value))
  {
    end := Append(buffer, ptr, Le32(|key| + |value| + 1));
    end := Append(buffer, end, key);
    end := Append(buffer, end, [EQUALS]);
    end := Append(buffer, end, value);
  }

  method Size(keyVals: map<Str, Str>) returns (size: uint32)
    requires (SortedKeys(keyVals); TotalSize(keyVals, Sorted(keyVals.Keys)) < TWO_TO_32)
    ensures (SortedKeys(keyVals); size == TotalSize(keyVals, Sorted(keyVals.Keys)))
  {
    SortedKeys(keyVals);
    size := 0;
    var rest := keyVals.Keys;
    while rest != {}
      invariant rest <= keyVals.Keys
      invariant forall k :: k in Sorted(rest) <==> k in rest
      invariant size + TotalSize(keyVals, Sorted(rest)) == TotalSize(keyVals, Sorted(keyVals.Keys))
      decreases |rest|
    {
      LexFirstExists(rest);
      var key :| LexFirst(rest, key);
      SortedFirst(rest, key);
      SortedIs(rest - {key});
      size := size + |key|;
      size := size + |keyVals[key]|;
      size := size + 1;
      size := size + 4;
      rest := rest - {key};
    }
    SortedEmpty();
  }

  /** `write` fills exactly `size` bytes of a new buffer; for an empty map it leaves `buffer0` alone. */
  method Write(keyVals: map<Str, Str>, buffer0: array<byte>) returns (buffer: array<byte>, size: uint32)
    requires (SortedKeys(keyVals); TotalSize(keyVals, Sorted(keyVals.Keys)) < TWO_TO_32)
    ensures LinesFit(keyVals) && size == |Encode(keyVals)|
    ensures size > 0 ==> fresh(buffer) && buffer[..] == Encode(keyVals)
    ensures size == 0 ==> buffer == buffer0
  {
    SortedKeys(keyVals);
    ghost var keys := Sorted(keyVals.Keys);
    LinesFitTotal(keyVals, keys);
    EncodeLinesSize(keyVals, keys);
    size := Size(keyVals);
    if size == 0 {
      return buffer0, 0;
    }
    buffer := new byte[size];
    var ptr: nat := 0;
    var rest := keyVals.Keys;
    while rest != {}
      invariant rest <= keyVals.Keys && ptr <= buffer.Length == size
      invariant forall k :: k in Sorted(rest) <==> k in rest
      invariant buffer[..ptr] + EncodeLines(keyVals, Sorted(rest)) == Encode(keyVals)
      decreases |rest|
    {
      LexFirstExists(rest);
      var key :| LexFirst(rest, key);
      SortedFirst(rest, key);
      SortedIs(rest - {key});
      var value := keyVals[key];
      ghost var before, after := buffer[..ptr], EncodeLines(keyVals, Sorted(rest - {key}));
      assert EncodeLines(keyVals, Sorted(rest)) == EncodeLine(Line(key, value)) + after;
      assert |before| + (4 + |Line(key, value)|) + |after| == size;
      ptr := AppendLine(buffer, ptr, key, value);
      ConcatAssociative(before, EncodeLine(Line(key, value)), after);
      rest := rest - {key};
    }
    SortedEmpty();
    assert buffer[..ptr] == Encode(keyVals);
    assert buffer[..ptr] == buffer[..];
  }

  class Header {
    var readMap: map<Str, Str>

    constructor ()
      ensures readMap == map[]
    {
      readMap := map[];
    }

    method ParseBuffer(buffer: array<byte>, size: nat) returns (ok: bool)
      requires size <= buffer.Length && InBounds(buffer[..size])
      modifies this
      ensures (ok, readMap) == Parse(buffer[..size], old(readMap))
    {
      var buf := 0;
      while buf < size
        invariant buf <= size && InBounds(buffer[buf..size])
        invariant Parse(buffer[buf..size], readMap) == Parse(buffer[..size], old(readMap))
      {
        ghost var b, at := buffer[buf..size], buf;
        assert b[..4] == buffer[buf..buf + 4];
        var len := FromLe32(buffer[buf..buf + 4]);
        buf := buf + 4;
        if len > MAX_LINE {
          return false;
        }
        var line := buffer[buf..buf + len];
        assert line == buffer[at + 4..at + 4 + len] == b[4..4 + len];
        buf := buf + len;
        var eqpos := FirstEquals(line);
        if eqpos == |line| {
          return false;
        }
        assert b[4 + len..] == buffer[buf..size];
        readMap := readMap[line[..eqpos] := line[eqpos + 1..]];
      }
      return true;
    }

    method GetValue(key: Str) returns (found: bool, value: Str)
      ensures found == (key in readMap) && (found ==> value == readMap[key])
    {
      if key !in readMap {
        return false, [];
      }
      return true, readMap[key];
    }
  }

  /** The whole trip through the code: a fresh header parses what `write` wrote. */
  method WriteThenParse(m: map<Str, Str>, buffer0: array<byte>) returns (h: Header, ok: bool)
    requires (SortedKeys(m); TotalSize(m, Sorted(m.Keys)) < TWO_TO_32)
    ensures fresh(h) && (ok && h.readMap == m <==> GoodMap(m))
  {
    h := new Header();
    var buffer, size := Write(m, buffer0);
    RoundTripExact(m);
    if size == 0 {
      assert buffer[..0] == Encode(m);
      ok := h.ParseBuffer(buffer, 0);
    } else {
      assert buffer[..size] == buffer[..];
      ok := h.ParseBuffer(buffer, size);
    }
  }

  /** One entry as it goes over the wire: a length, the key, '=' and the value. */
  lemma EncodeExample()
    ensures LinesFit(map[[97] := [49]])
    ensures Encode(map[[97] := [49]]) == [3, 0, 0, 0, 97, 61, 49]
  {
    var m: map<Str, Str> := map[[97] := [49]];
    assert m.Keys == {[97]};
    SortedFirst({[97]}, [97]);
    assert {[97]} - {[97]} == {};
    SortedEmpty();
    assert Sorted(m.Keys) == [[97]];
    assert Line([97], [49]) == [97, 61, 49];
    assert EncodeLines(m, [[97]]) == EncodeLine([97, 61, 49]) + EncodeLines(m, []);
  }
}
