/**
 Journal fields on the wire: both encoders, and a decoder written from the section "Journal Export Format" of
 systemd's Journal Export Formats, which recovers them.
*/
module Journal {
  import opened Options

  newtype Byte = x: int | 0 <= x < 256

  type Bytes = seq<Byte>

  const NEWLINE: Byte := 10
  const EQUALS: Byte := 61

  datatype Field = Field(key: Bytes, value: Bytes)

  // ----- 64-bit little-endian lengths -----

  function Pow256(k: nat): (p: nat)
    ensures p > 0
  {
    if k == 0 then 1 else 256 * Pow256(k - 1)
  }

  /** The low `k` bytes of `n`, least significant first. */
  function LittleEndian(n: nat, k: nat): (bs: Bytes)
    ensures |bs| == k
  {
    if k == 0 then [] else [(n % 256) as Byte] + LittleEndian(n / 256, k - 1)
  }

  function FromLittleEndian(bs: Bytes): nat {
    if bs == [] then 0 else bs[0] as int + 256 * FromLittleEndian(bs[1..])
  }

  lemma {:induction false} LengthRoundTrip(n: nat, k: nat)
    requires n < Pow256(k)
    ensures FromLittleEndian(LittleEndian(n, k)) == n
  {
    if k > 0 {
      LengthRoundTrip(n / 256, k - 1);
    }
  }

  lemma {:induction false} LittleEndianAt(n: nat, k: nat, i: nat)
    requires i < k
    ensures LittleEndian(n, k)[i] as int == n / Pow256(i) % 256
  {
    if i > 0 {
      LittleEndianAt(n / 256, k - 1, i - 1);
      DivTwice(n, Pow256(i - 1));
    }
  }

  lemma DivTwice(n: nat, p: nat)
    requires p > 0
    ensures n / 256 / p == n / (256 * p)
  {
    var q, r := n / 256 / p, n / 256 % p;
    var m := n % 256;
    assert n == 256 * (p * q + r) + m;
    assert n == (256 * p) * q + (256 * r + m);
    assert 0 <= 256 * r + m < 256 * p;
    DivUnique(n, 256 * p, q, 256 * r + m);
  }

  lemma DivUnique(n: nat, d: nat, q: int, r: int)
    requires d > 0 && n == d * q + r && 0 <= r < d
    ensures n / d == q
  {
    var q', r' := n / d, n % d;
    assert d * (q - q') == r' - r;
    if q > q' {
      AtLeastOnce(d, q - q');
      assert false;
    }
    if q' > q {
      AtLeastOnce(d, q' - q);
      assert false;
    }
  }

  lemma AtLeastOnce(d: nat, x: int)
    requires x >= 1
    ensures d * x >= d
  {
    assert d * x == d * (x - 1) + d;
  }

  // ----- Encoding -----

  /** A field without a newline is a line; one with a newline carries its length. */
  function EncodeField(f: Field): Bytes {
    if NEWLINE in f.value then f.key + ([NEWLINE] + (LittleEndian(|f.value|, 8) + (f.value + [NEWLINE])))
    else f.key + ([EQUALS] + (f.value + [NEWLINE]))
  }

  function Encode(fs: seq<Field>): Bytes {
    if fs == [] then [] else Encode(fs[..|fs| - 1]) + EncodeField(fs[|fs| - 1])
  }

  lemma EncodeNext(fields: seq<Field>, i: nat)
    requires i < |fields|
    ensures Encode(fields[..i + 1]) == Encode(fields[..i]) + EncodeField(Field(fields[i].key, fields[i].value))
  {
    assert fields[..i + 1][..i] == fields[..i];
  }

  /** The operator's encoder, over the fields in the order of its map. */
  method EncodeJournalFields(fields: seq<Field>) returns (out: Bytes)
    ensures out == Encode(fields)
  {
    out := [];
    for i := 0 to |fields|
      invariant out == Encode(fields[..i])
    {
      EncodeNext(fields, i);
      out := AppendField(out, fields[i]);
    }
    assert fields[..|fields|] == fields;
  }

  method AppendField(before: Bytes, field: Field) returns (out: Bytes)
    ensures out == before + EncodeField(field)
  {
    var key, value := field.key, field.value;
    out := before;
    if NEWLINE in value {
      out := out + key;
      out := out + [NEWLINE];
      out := out + LittleEndian(|value|, 8);
      out := out + value;
      out := out + [NEWLINE];
    } else {
      out := out + key;
      out := out + [EQUALS];
      out := out + value;
      out := out + [NEWLINE];
    }
  }

  /** `byte(n >> (8 * i))` for each of the eight bytes. */
  method GoLength(n: nat) returns (l: array<Byte>)
    ensures fresh(l) && l[..] == LittleEndian(n, 8)
  {
    l := new Byte[8];
    for i := 0 to 8
      invariant forall j :: 0 <= j < i ==> l[j] == LittleEndian(n, 8)[j]
    {
      LittleEndianAt(n, 8, i);
      l[i] := (n / Pow256(i) % 256) as Byte;
    }
  }

  /** The dispatcher's encoder, over the fields in the order its map happens to give. */
  method GoEncodeJournalFields(fields: seq<Field>) returns (out: Bytes)
    ensures out == Encode(fields)
  {
    out := [];
    for i := 0 to |fields|
      invariant out == Encode(fields[..i])
    {
      EncodeNext(fields, i);
      out := GoWriteField(out, fields[i].key, fields[i].value);
    }
    assert fields[..|fields|] == fields;
  }

  method GoWriteField(before: Bytes, k: Bytes, v: Bytes) returns (b: Bytes)
    ensures b == before + EncodeField(Field(k, v))
  {
    b := before;
    if NEWLINE in v {
      b := b + k;
      b := b + [NEWLINE];
      var l := GoLength(|v|);
      b := b + l[..];
      b := b + v;
      b := b + [NEWLINE];
    } else {
      b := b + k;
      b := b + [EQUALS];
      b := b + v;
      b := b + [NEWLINE];
    }
  }

  // ----- Decoding -----

  function IndexOf(bs: Bytes, b: Byte): (r: Option<nat>)
    ensures r.Some? ==> r.value < |bs| && bs[r.value] == b
  {
    if bs == [] then None
    else if bs[0] == b then Some(0)
    else
      match IndexOf(bs[1..], b)
      case None => None
      case Some(i) => Some(i + 1)
  }

  /** The long form: the length stands behind the key's line, the value and a newline behind the length. */
  function DecodeLong(bs: Bytes, end: nat): (r: Option<(Field, nat)>)
    requires end < |bs|
    ensures r.Some? ==> 0 < r.value.1 <= |bs|
  {
    if end == 0 || |bs| < end + 9 then None
    else DecodeValue(bs, bs[..end], end + 9, FromLittleEndian(bs[end + 1..end + 9]))
  }

  function DecodeValue(bs: Bytes, key: Bytes, data: nat, n: nat): (r: Option<(Field, nat)>)
    requires data <= |bs|
    ensures r.Some? ==> 0 < r.value.1 <= |bs|
  {
    if |bs| < data + n + 1 || bs[data + n] != NEWLINE then None
    else Some((Field(key, bs[data..data + n]), data + n + 1))
  }

  /** A field and how many bytes it took. */
  function DecodeField(bs: Bytes): (r: Option<(Field, nat)>)
    ensures r.Some? ==> 0 < r.value.1 <= |bs|
  {
    match IndexOf(bs, NEWLINE)
    case None => None
    case Some(end) =>
      match IndexOf(bs[..end], EQUALS)
      case Some(eq) => Some((Field(bs[..eq], bs[eq + 1..end]), end + 1))
      case None => DecodeLong(bs, end)
  }

  /** The fields of an entry, up to the end of the text. */
  function Decode(bs: Bytes): Option<seq<Field>>
    decreases |bs|
  {
    if bs == [] then Some([])
    else
      match DecodeField(bs)
      case None => None
      case Some((f, n)) =>
        match Decode(bs[n..])
        case None => None
        case Some(more) => Some([f] + more)
  }

  /** What the format asks of a field. */
  predicate IsProper(f: Field) {
    f.key != [] && EQUALS !in f.key && NEWLINE !in f.key && |f.value| < Pow256(8)
  }

  lemma {:induction false} IndexAfter(a: Bytes, b: Byte, rest: Bytes)
    requires b !in a
    ensures IndexOf(a + ([b] + rest), b) == Some(|a|)
  {
    if a == [] {
      assert a + ([b] + rest) == [b] + rest;
    } else {
      assert (a + ([b] + rest))[1..] == a[1..] + ([b] + rest);
      IndexAfter(a[1..], b, rest);
    }
  }

  lemma {:induction false} NoIndex(a: Bytes, b: Byte)
    requires b !in a
    ensures IndexOf(a, b) == None
  {
    if a != [] {
      NoIndex(a[1..], b);
    }
  }

  /** A field, whatever follows it, is decoded from its encoding. */
  lemma FieldRoundTrip(f: Field, rest: Bytes)
    requires IsProper(f)
    ensures DecodeField(EncodeField(f) + rest) == Some((f, |EncodeField(f)|))
  {
    if NEWLINE in f.value {
      var length := LittleEndian(|f.value|, 8);
      LongText(f, length);
      LengthRoundTrip(|f.value|, 8);
      LongField(f, rest, EncodeField(f) + rest, length);
    } else {
      ShortField(f, rest, EncodeField(f) + rest);
    }
  }

  lemma ShortField(f: Field, rest: Bytes, bs: Bytes)
    requires IsProper(f) && NEWLINE !in f.value && bs == EncodeField(f) + rest
    ensures DecodeField(bs) == Some((f, |EncodeField(f)|))
  {
    var line := f.key + ([EQUALS] + f.value);
    ShortParts(bs, f, rest, line);
    IndexAfter(line, NEWLINE, rest);
    IndexAfter(f.key, EQUALS, f.value);
    DecodesShort(bs, |line|, |f.key|);
  }

  lemma DecodesShort(bs: Bytes, end: nat, eq: nat)
    requires end < |bs| && IndexOf(bs, NEWLINE) == Some(end) && IndexOf(bs[..end], EQUALS) == Some(eq)
    ensures DecodeField(bs) == Some((Field(bs[..eq], bs[eq + 1..end]), end + 1))
  {}

  lemma ShortParts(bs: Bytes, f: Field, rest: Bytes, line: Bytes)
    requires NEWLINE !in f.value && bs == EncodeField(f) + rest && line == f.key + ([EQUALS] + f.value)
    ensures bs == line + ([NEWLINE] + rest) && bs[..|line|] == line && |EncodeField(f)| == |line| + 1
    ensures line[..|f.key|] == f.key && bs[..|f.key|] == f.key && bs[|f.key| + 1..|line|] == f.value
  {}

  lemma LongParts(bs: Bytes, key: Bytes, length: Bytes, value: Bytes, rest: Bytes)
    requires |length| == 8 && bs == key + ([NEWLINE] + (length + (value + [NEWLINE]))) + rest
    ensures var data := |key| + 9;
            && |bs| >= data + |value| + 1 && bs[..|key|] == key && bs[|key| + 1..data] == length
            && bs[data..data + |value|] == value && bs[data + |value|] == NEWLINE
  {}

  lemma KeyLine(key: Bytes, tail: Bytes, rest: Bytes)
    requires NEWLINE !in key
    ensures IndexOf(key + ([NEWLINE] + tail) + rest, NEWLINE) == Some(|key|)
  {
    assert key + ([NEWLINE] + tail) + rest == key + ([NEWLINE] + (tail + rest));
    IndexAfter(key, NEWLINE, tail + rest);
  }

  lemma LongField(f: Field, rest: Bytes, bs: Bytes, length: Bytes)
    requires f.key != [] && EQUALS !in f.key && NEWLINE !in f.key
    requires |length| == 8 && FromLittleEndian(length) == |f.value|
    requires bs == f.key + ([NEWLINE] + (length + (f.value + [NEWLINE]))) + rest
    ensures DecodeField(bs) == Some((f, |f.key| + 9 + |f.value| + 1))
  {
    KeyLine(f.key, length + (f.value + [NEWLINE]), rest);
    LongParts(bs, f.key, length, f.value, rest);
    NoIndex(f.key, EQUALS);
    DecodesLong(bs, f, |f.key|, length);
  }

  lemma LongText(f: Field, length: Bytes)
    requires NEWLINE in f.value && length == LittleEndian(|f.value|, 8)
    ensures EncodeField(f) == f.key + ([NEWLINE] + (length + (f.value + [NEWLINE])))
    ensures |EncodeField(f)| == |f.key| + 9 + |f.value| + 1
  {}

  lemma DecodesLong(bs: Bytes, f: Field, end: nat, length: Bytes)
    requires 0 < end == |f.key| && |bs| >= end + 9 + |f.value| + 1
    requires bs[..end] == f.key && bs[end + 1..end + 9] == length && FromLittleEndian(length) == |f.value|
    requires bs[end + 9..end + 9 + |f.value|] == f.value && bs[end + 9 + |f.value|] == NEWLINE
    ensures DecodeLong(bs, end) == Some((f, end + 9 + |f.value| + 1))
  {
    assert DecodeValue(bs, f.key, end + 9, |f.value|) == Some((f, end + 9 + |f.value| + 1));
  }

  lemma {:induction false} EncodeFront(fs: seq<Field>)
    requires fs != []
    ensures Encode(fs) == EncodeField(fs[0]) + Encode(fs[1..])
  {
    if |fs| > 1 {
      var front := fs[..|fs| - 1];
      EncodeFront(front);
      assert front[1..] == fs[1..][..|fs[1..]| - 1];
      Associate(EncodeField(fs[0]), Encode(front[1..]), EncodeField(fs[|fs| - 1]));
    } else {
      assert fs[..0] == [] && fs[1..] == [];
    }
  }

  lemma Associate(a: Bytes, b: Bytes, c: Bytes)
    ensures a + b + c == a + (b + c)
  {}

  lemma DecodeFront(f: Field, code: Bytes, rest: Bytes, fs: seq<Field>)
    requires DecodeField(code + rest) == Some((f, |code|)) && Decode(rest) == Some(fs)
    ensures Decode(code + rest) == Some([f] + fs)
  {
    assert (code + rest)[|code|..] == rest;
  }

  /** Every list of proper fields, in any order, is decoded from its encoding. */
  lemma {:induction false} JournalRoundTrip(fs: seq<Field>)
    requires forall i :: 0 <= i < |fs| ==> IsProper(fs[i])
    ensures Decode(Encode(fs)) == Some(fs)
    decreases |fs|
  {
    if fs != [] {
      EncodeFront(fs);
      FieldRoundTrip(fs[0], Encode(fs[1..]));
      JournalRoundTrip(fs[1..]);
      DecodeFront(fs[0], EncodeField(fs[0]), Encode(fs[1..]), fs[1..]);
      assert [fs[0]] + fs[1..] == fs;
    }
  }

  /** `fs` lists the fields of `m`, in some order. */
  ghost predicate Lists(fs: seq<Field>, m: map<Bytes, Bytes>) {
    && (forall i, j :: 0 <= i < j < |fs| ==> fs[i].key != fs[j].key)
    && (forall i :: 0 <= i < |fs| ==> fs[i].key in m && m[fs[i].key] == fs[i].value)
    && (forall k :: k in m ==> exists i :: 0 <= i < |fs| && fs[i].key == k)
  }

  /** The same map encoded in two orders decodes to lists of the same map. */
  lemma {:induction false} AnyOrderDecodesToTheMap(m: map<Bytes, Bytes>, fs: seq<Field>, gs: seq<Field>)
    requires Lists(fs, m) && Lists(gs, m)
    requires forall k :: k in m ==> IsProper(Field(k, m[k]))
    ensures Decode(Encode(fs)).Some? && Decode(Encode(gs)).Some?
    ensures multiset(Decode(Encode(fs)).value) == multiset(Decode(Encode(gs)).value)
  {
    forall i | 0 <= i < |fs|
      ensures IsProper(fs[i])
    {
      assert fs[i] == Field(fs[i].key, m[fs[i].key]);
    }
    forall i | 0 <= i < |gs|
      ensures IsProper(gs[i])
    {
      assert gs[i] == Field(gs[i].key, m[gs[i].key]);
    }
    JournalRoundTrip(fs);
    JournalRoundTrip(gs);
    SameListing(m, fs, gs);
  }

  lemma CountsOnce(m: map<Bytes, Bytes>, fs: seq<Field>, f: Field)
    requires Lists(fs, m)
    ensures multiset(fs)[f] == if f.key in m && m[f.key] == f.value then 1 else 0
  {
    if f.key in m && m[f.key] == f.value {
      var i :| 0 <= i < |fs| && fs[i].key == f.key;
      assert fs[i] == f;
      OneCopy(fs, i);
    } else {
      assert f !in fs;
    }
  }

  lemma OneCopy(fs: seq<Field>, i: nat)
    requires i < |fs| && forall j :: 0 <= j < |fs| && j != i ==> fs[j] != fs[i]
    ensures multiset(fs)[fs[i]] == 1
  {
    assert fs == fs[..i] + ([fs[i]] + fs[i + 1..]);
    assert fs[i] !in fs[..i] && fs[i] !in fs[i + 1..];
    assert multiset(fs) == multiset(fs[..i]) + (multiset{fs[i]} + multiset(fs[i + 1..]));
  }

  lemma SameListing(m: map<Bytes, Bytes>, fs: seq<Field>, gs: seq<Field>)
    requires Lists(fs, m) && Lists(gs, m)
    ensures multiset(fs) == multiset(gs)
  {
    forall f
      ensures multiset(fs)[f] == multiset(gs)[f]
    {
      CountsOnce(m, fs, f);
      CountsOnce(m, gs, f);
    }
  }
}
