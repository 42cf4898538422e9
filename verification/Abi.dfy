/**
 The ABI decoder of chain/cheatcode_abi.py, and the canonical head/tail encoding of the
 Solidity Contract ABI Specification (section "Formal Specification of the Encoding") that
 it is measured against.
 */
module Abi {
  import opened Prelude

  const WORD: nat := 32

  // ---------------------------------------------------------------- types and values

  datatype AbiType =
    | Address
    | Bool
    | Uint(bits: nat)
    | Int(bits: nat)
    | FixedBytes(size: nat)
    | String
    | DynBytes
    | Array

  /** `Hex` is "0x"-text of the bytes it holds, `Text` a string kept as its bytes, and
      `Present` the placeholder recorded for an array argument. */
  datatype AbiValue =
    | Hex(bytes: Bytes)
    | Flag(on: bool)
    | Num(n: int)
    | Text(text: Bytes)
    | Present

  /** The kind of value that decoding a type yields. */
  predicate Shape(t: AbiType, v: AbiValue) {
    match t
    case Address => v.Hex? && |v.bytes| == 20
    case Bool => v.Flag?
    case Uint(_) => v.Num? && v.n >= 0
    case Int(_) => v.Num?
    case FixedBytes(_) => v.Hex?
    case String => v.Text?
    case DynBytes => v.Hex?
    case Array => v.Present?
  }

  predicate Dynamic(t: AbiType) {
    t.String? || t.DynBytes?
  }

  // ---------------------------------------------------------------- big-endian numbers

  function Pow2(n: nat): (p: nat)
    ensures p > 0
  {
    if n == 0 then 1 else 2 * Pow2(n - 1)
  }

  function Pow256(n: nat): (p: nat)
    ensures p > 0
  {
    if n == 0 then 1 else 256 * Pow256(n - 1)
  }

  /** The number written by the first `k` bytes, most significant first. */
  function LeadingValue(s: Bytes, k: nat): nat
    requires k <= |s|
  {
    if k == 0 then 0 else LeadingValue(s, k - 1) * 256 + s[k - 1]
  }

  function BigEndian(s: Bytes): nat {
    LeadingValue(s, |s|)
  }

  /** Base-256 digit `k` of `v`, counted from the least significant. */
  function Digit(v: nat, k: nat): byte {
    if k == 0 then v % 256 else Digit(v / 256, k - 1)
  }

  function ToBytes(v: nat, n: nat): (s: Bytes)
    ensures |s| == n
  {
    seq(n, i requires 0 <= i < n => Digit(v, n - 1 - i))
  }

  /** Two's complement reading of a big-endian word. */
  function Signed(s: Bytes): int {
    var v := BigEndian(s);
    if 2 * v < Pow256(|s|) then v else v - Pow256(|s|)
  }

  predicate FitsSigned(n: int, width: nat) {
    0 - Pow256(width) <= 2 * n < Pow256(width)
  }

  /** Two's complement writing of a number. */
  function SignedToBytes(n: int, width: nat): (s: Bytes)
    requires FitsSigned(n, width)
    ensures |s| == width
  {
    ToBytes(if n >= 0 then n else n + Pow256(width), width)
  }

  lemma {:induction false} LeadingValueBound(s: Bytes, k: nat)
    requires k <= |s|
    ensures LeadingValue(s, k) < Pow256(k)
  {
    if k > 0 {
      LeadingValueBound(s, k - 1);
    }
  }

  lemma {:induction false} LeadingValueOfPrefix(a: Bytes, b: Bytes, k: nat)
    requires k <= |a| && k <= |b|
    requires forall i :: 0 <= i < k ==> a[i] == b[i]
    ensures LeadingValue(a, k) == LeadingValue(b, k)
  {
    if k > 0 {
      LeadingValueOfPrefix(a, b, k - 1);
    }
  }

  lemma {:induction false} BigEndianOfToBytes(v: nat, n: nat)
    requires v < Pow256(n)
    ensures BigEndian(ToBytes(v, n)) == v
  {
    if n > 0 {
      BigEndianOfToBytes(v / 256, n - 1);
      forall i | 0 <= i < n - 1
        ensures ToBytes(v, n)[i] == ToBytes(v / 256, n - 1)[i]
      {
        assert Digit(v, n - 1 - i) == Digit(v / 256, n - 2 - i);
      }
      LeadingValueOfPrefix(ToBytes(v, n), ToBytes(v / 256, n - 1), n - 1);
      assert ToBytes(v, n)[n - 1] == Digit(v, 0) == v % 256;
    }
  }

  lemma {:induction false} DigitOfLeadingValue(s: Bytes, k: nat, i: nat)
    requires i < k <= |s|
    ensures Digit(LeadingValue(s, k), k - 1 - i) == s[i]
  {
    if i < k - 1 {
      DigitOfLeadingValue(s, k - 1, i);
      assert LeadingValue(s, k) / 256 == LeadingValue(s, k - 1);
    }
  }

  lemma {:induction false} ToBytesOfBigEndian(s: Bytes)
    ensures ToBytes(BigEndian(s), |s|) == s
  {
    forall i | 0 <= i < |s|
      ensures Digit(BigEndian(s), |s| - 1 - i) == s[i]
    {
      DigitOfLeadingValue(s, |s|, i);
    }
  }

  lemma {:induction false} Pow2Monotone(m: nat, n: nat)
    requires m <= n
    ensures Pow2(m) <= Pow2(n)
  {
    if m < n {
      Pow2Monotone(m, n - 1);
    }
  }

  lemma {:induction false} Pow256IsPow2(n: nat)
    ensures Pow256(n) == Pow2(8 * n)
  {
    if n > 0 {
      Pow256IsPow2(n - 1);
      Pow2Eightfold(8 * (n - 1));
    }
  }

  lemma {:induction false} Pow2Eightfold(n: nat)
    ensures Pow2(n + 8) == 256 * Pow2(n)
  {
    assert Pow2(n + 2) == 4 * Pow2(n);
    assert Pow2(n + 4) == 4 * Pow2(n + 2);
    assert Pow2(n + 6) == 4 * Pow2(n + 4);
  }

  lemma {:induction false} SignedOfSignedToBytes(n: int, width: nat)
    requires FitsSigned(n, width)
    ensures Signed(SignedToBytes(n, width)) == n
  {
    BigEndianOfToBytes(if n >= 0 then n else n + Pow256(width), width);
  }

  lemma {:induction false} SignedToBytesOfSigned(s: Bytes)
    ensures FitsSigned(Signed(s), |s|)
    ensures SignedToBytes(Signed(s), |s|) == s
  {
    LeadingValueBound(s, |s|);
    ToBytesOfBigEndian(s);
  }

  lemma {:induction false} WidthFitsWord(bits: nat)
    requires bits <= 256
    ensures Pow2(bits) <= Pow256(WORD)
  {
    Pow256IsPow2(WORD);
    Pow2Monotone(bits, 256);
  }

  // ---------------------------------------------------------------- the decoder

  function Word(data: Bytes, offset: nat): (r: Result<Bytes>)
    ensures r.Ok? <==> offset + WORD <= |data|
    ensures r.Ok? ==> |r.value| == WORD
  {
    if offset + WORD > |data| then Reject else Ok(data[offset..offset + WORD])
  }

  predicate InSignedRange(v: int, bits: nat)
    requires bits > 0
  {
    0 - Pow2(bits - 1) <= v < Pow2(bits - 1)
  }

  function DecodeStatic(t: AbiType, word: Bytes): (r: Result<AbiValue>)
    requires |word| == WORD
    ensures r.Ok? ==> Shape(t, r.value)
  {
    match t
    case Address =>
      if !AllZero(word[..12]) then Reject else Ok(Hex(word[12..]))
    case Bool =>
      var v := BigEndian(word);
      if v > 1 then Reject else Ok(Flag(v == 1))
    case Uint(bits) =>
      var v := BigEndian(word);
      if v >= Pow2(bits) then Reject else Ok(Num(v))
    case Int(bits) =>
      var v := Signed(word);
      if bits == 0 || !InSignedRange(v, bits) then Reject else Ok(Num(v))
    case FixedBytes(size) =>
      if !(1 <= size <= WORD) || !AllZero(word[size..]) then Reject else Ok(Hex(word[..size]))
    case String => Reject
    case DynBytes => Reject
    case Array => Reject
  }

  /** The payload a head word points at. */
  function DecodePayload(data: Bytes, head: Bytes): (r: Result<Bytes>)
    requires |head| == WORD
    ensures r.Ok? ==>
              var start := BigEndian(head) + WORD;
              && start + |r.value| <= |data|
              && r.value == data[start..start + |r.value|]
              && |r.value| == BigEndian(data[BigEndian(head)..start])
  {
    var offset := BigEndian(head);
    match Word(data, offset)
    case Reject => Reject
    case Ok(lengthWord) =>
      var length, start := BigEndian(lengthWord), offset + WORD;
      if start + length > |data| then Reject else Ok(data[start..start + length])
  }

  /** A payload is accepted exactly when the word at its offset and as many bytes as that word says
      lie within the data. */
  lemma {:induction false} PayloadAcceptedExactly(data: Bytes, head: Bytes)
    requires |head| == WORD
    ensures DecodePayload(data, head).Ok? <==>
            && BigEndian(head) + WORD <= |data|
            && BigEndian(head) + WORD + BigEndian(data[BigEndian(head)..BigEndian(head) + WORD]) <= |data|
  {
    hide BigEndian;
  }

  function DecodeDynamic(t: AbiType, data: Bytes, head: Bytes): Result<AbiValue>
    requires Dynamic(t) && |head| == WORD
  {
    match DecodePayload(data, head)
    case Reject => Reject
    case Ok(raw) => Ok(if t.String? then Text(raw) else Hex(raw))
  }

  function DecodeArgument(t: AbiType, body: Bytes, index: nat): (r: Result<AbiValue>)
    ensures r.Ok? ==> Shape(t, r.value)
  {
    match Word(body, WORD * index)
    case Reject => Reject
    case Ok(head) =>
      if Dynamic(t) then DecodeDynamic(t, body, head)
      else if t.Array? then Ok(Present)
      else DecodeStatic(t, head)
  }

  /** What decoding `types[index..]` at head positions `index`, `index + 1`, ... yields. */
  function DecodeFrom(types: seq<AbiType>, body: Bytes, index: nat): (r: Result<seq<AbiValue>>)
    requires index <= |types|
    ensures r.Ok? ==> |r.value| == |types| - index
    ensures r.Ok? ==> forall i :: 0 <= i < |types| - index ==> Shape(types[index + i], r.value[i])
    decreases |types| - index
  {
    if index == |types| then Ok([])
    else
      match DecodeArgument(types[index], body, index)
      case Reject => Reject
      case Ok(v) =>
        match DecodeFrom(types, body, index + 1)
        case Reject => Reject
        case Ok(rest) => Ok([v] + rest)
  }

  function Decode(types: seq<AbiType>, body: Bytes): (r: Result<seq<AbiValue>>)
    ensures r.Ok? ==> |r.value| == |types| && forall i :: 0 <= i < |types| ==> Shape(types[i], r.value[i])
  {
    DecodeFrom(types, body, 0)
  }

  /** The loop of `decode_abi_arguments`: it accepts exactly when every argument decodes on its
      own, and then returns them in order. */
  method DecodeAbiArguments(types: seq<AbiType>, body: Bytes) returns (r: Result<seq<AbiValue>>)
    ensures r == Decode(types, body)
    ensures r.Ok? <==> forall i :: 0 <= i < |types| ==> DecodeArgument(types[i], body, i).Ok?
    ensures r.Ok? ==> |r.value| == |types| && forall i :: 0 <= i < |types| ==> DecodeArgument(types[i], body, i) == Ok(r.value[i])
  {
    var args: seq<AbiValue> := [];
    assert Prefixed([], Decode(types, body)) == Decode(types, body) by {
      if Decode(types, body).Ok? { assert [] + Decode(types, body).value == Decode(types, body).value; }
    }
    for index := 0 to |types|
      invariant |args| == index
      invariant forall i :: 0 <= i < index ==> DecodeArgument(types[i], body, i) == Ok(args[i])
      invariant Decode(types, body) == Prefixed(args, DecodeFrom(types, body, index))
    {
      match DecodeArgument(types[index], body, index) {
        case Reject => return Reject;
        case Ok(v) =>
          PrefixedSnoc(args, v, DecodeFrom(types, body, index + 1));
          args := args + [v];
      }
    }
    assert args + [] == args;
    return Ok(args);
  }

  ghost function Prefixed(args: seq<AbiValue>, r: Result<seq<AbiValue>>): Result<seq<AbiValue>> {
    match r
    case Reject => Reject
    case Ok(rest) => Ok(args + rest)
  }

  lemma {:induction false} PrefixedSnoc(args: seq<AbiValue>, v: AbiValue, r: Result<seq<AbiValue>>)
    ensures Prefixed(args + [v], r) ==
            Prefixed(args, match r case Reject => Reject case Ok(rest) => Ok([v] + rest))
  {
    if r.Ok? {
      assert (args + [v]) + r.value == args + ([v] + r.value);
    }
  }

  // ---------------------------------------------------------------- the canonical encoding

  lemma {:induction false} HalfRange(bits: nat)
    requires 1 <= bits <= 256
    ensures forall n :: InSignedRange(n, bits) ==> FitsSigned(n, WORD)
  {
    WidthFitsWord(bits);
  }

  predicate Supported(t: AbiType) {
    match t
    case Uint(bits) => bits <= 256
    case Int(bits) => 1 <= bits <= 256
    case FixedBytes(size) => 1 <= size <= WORD
    case Array => false
    case _ => true
  }

  predicate HasType(t: AbiType, v: AbiValue) {
    match t
    case Address => v.Hex? && |v.bytes| == 20
    case Bool => v.Flag?
    case Uint(bits) => v.Num? && 0 <= v.n < Pow2(bits)
    case Int(bits) => v.Num? && bits > 0 && InSignedRange(v.n, bits)
    case FixedBytes(size) => v.Hex? && |v.bytes| == size
    case String => v.Text?
    case DynBytes => v.Hex?
    case Array => false
  }

  predicate HaveTypes(types: seq<AbiType>, values: seq<AbiValue>) {
    && |types| == |values|
    && forall i :: 0 <= i < |types| ==> Supported(types[i]) && HasType(types[i], values[i])
  }

  function EncodeStatic(t: AbiType, v: AbiValue): (w: Bytes)
    requires Supported(t) && HasType(t, v) && !Dynamic(t)
    ensures |w| == WORD
  {
    match t
    case Address => Zeros(12) + v.bytes
    case Bool => ToBytes(if v.on then 1 else 0, WORD)
    case Uint(_) => ToBytes(v.n, WORD)
    case Int(bits) =>
      HalfRange(bits);
      SignedToBytes(v.n, WORD)
    case FixedBytes(size) => v.bytes + Zeros(WORD - size)
  }

  function Payload(v: AbiValue): Bytes
    requires v.Hex? || v.Text?
  {
    if v.Hex? then v.bytes else v.text
  }

  /** Zero bytes that bring a payload of `n` bytes up to a whole number of words. */
  function Padding(n: nat): nat {
    (WORD - n % WORD) % WORD
  }

  function Tail(t: AbiType, v: AbiValue): Bytes
    requires HasType(t, v)
  {
    if Dynamic(t) then ToBytes(|Payload(v)|, WORD) + Payload(v) + Zeros(Padding(|Payload(v)|)) else []
  }

  function TailList(types: seq<AbiType>, values: seq<AbiValue>): (ts: seq<Bytes>)
    requires HaveTypes(types, values)
    ensures |ts| == |types|
  {
    seq(|types|, i requires 0 <= i < |types| => Tail(types[i], values[i]))
  }

  function Head(t: AbiType, v: AbiValue, offset: nat): (w: Bytes)
    requires Supported(t) && HasType(t, v)
    ensures |w| == WORD
  {
    if Dynamic(t) then ToBytes(offset, WORD) else EncodeStatic(t, v)
  }

  /** Where the tail of argument `i` starts: after all heads and the tails before it. */
  function TailOffset(types: seq<AbiType>, values: seq<AbiValue>, i: nat): nat
    requires HaveTypes(types, values) && i <= |types|
  {
    WORD * |types| + |Concat(TailList(types, values)[..i])|
  }

  function HeadList(types: seq<AbiType>, values: seq<AbiValue>): (hs: seq<Bytes>)
    requires HaveTypes(types, values)
    ensures |hs| == |types|
    ensures forall i :: 0 <= i < |hs| ==> |hs[i]| == WORD
  {
    seq(|types|, i requires 0 <= i < |types| => Head(types[i], values[i], TailOffset(types, values, i)))
  }

  function Encode(types: seq<AbiType>, values: seq<AbiValue>): Bytes
    requires HaveTypes(types, values)
  {
    Concat(HeadList(types, values)) + Concat(TailList(types, values))
  }

  // ---------------------------------------------------------------- static words are canonical

  lemma {:induction false} StaticRoundTrip(t: AbiType, v: AbiValue)
    requires Supported(t) && HasType(t, v) && !Dynamic(t)
    ensures DecodeStatic(t, EncodeStatic(t, v)) == Ok(v)
  {
    match t
    case Address =>
      assert (Zeros(12) + v.bytes)[..12] == Zeros(12) && (Zeros(12) + v.bytes)[12..] == v.bytes;
    case Bool =>
      BoolRoundTrip(v.on);
    case Uint(bits) =>
      WidthFitsWord(bits);
      BigEndianOfToBytes(v.n, WORD);
    case Int(bits) =>
      HalfRange(bits);
      SignedOfSignedToBytes(v.n, WORD);
    case FixedBytes(size) =>
      var w := v.bytes + Zeros(WORD - size);
      assert w[..size] == v.bytes && w[size..] == Zeros(WORD - size);
  }

  lemma {:induction false} BoolRoundTrip(on: bool)
    ensures BigEndian(ToBytes(if on then 1 else 0, WORD)) == if on then 1 else 0
  {
    WidthFitsWord(1);
    BigEndianOfToBytes(if on then 1 else 0, WORD);
  }

  /** Re-encoding what an accepted word decodes to gives the same 32 bytes back. */
  lemma {:induction false} StaticCanonical(t: AbiType, word: Bytes)
    requires Supported(t) && !Dynamic(t) && |word| == WORD
    requires DecodeStatic(t, word).Ok?
    ensures HasType(t, DecodeStatic(t, word).value)
    ensures EncodeStatic(t, DecodeStatic(t, word).value) == word
  {
    match t
    case Address =>
      AllZeroIsZeros(word[..12]);
      assert word == word[..12] + word[12..];
    case FixedBytes(size) =>
      AllZeroIsZeros(word[size..]);
      assert word == word[..size] + word[size..];
    case Int(bits) =>
      SignedToBytesOfSigned(word);
    case _ =>
      ToBytesOfBigEndian(word);
  }

  lemma {:induction false} DecodeElements(types: seq<AbiType>, body: Bytes, index: nat, i: nat)
    requires index <= i < |types|
    requires DecodeFrom(types, body, index).Ok?
    ensures DecodeArgument(types[i], body, i) == Ok(DecodeFrom(types, body, index).value[i - index])
    decreases i - index
  {
    if index < i {
      DecodeElements(types, body, index + 1, i);
    }
  }

  lemma {:induction false} HeadWordsAgree(types: seq<AbiType>, a: Bytes, b: Bytes, i: nat)
    requires i < |types| && Supported(types[i]) && !Dynamic(types[i])
    requires Decode(types, a).Ok? && Decode(types, a) == Decode(types, b)
    ensures WORD * i + WORD <= |a| && WORD * i + WORD <= |b|
    ensures a[WORD * i..WORD * i + WORD] == b[WORD * i..WORD * i + WORD]
  {
    DecodeElements(types, a, 0, i);
    DecodeElements(types, b, 0, i);
    StaticCanonical(types[i], a[WORD * i..WORD * i + WORD]);
    StaticCanonical(types[i], b[WORD * i..WORD * i + WORD]);
  }

  /** Bodies of all-static arguments that decode to the same values agree on every head byte. */
  lemma {:induction false} StaticBodiesAgree(types: seq<AbiType>, a: Bytes, b: Bytes)
    requires forall i :: 0 <= i < |types| ==> Supported(types[i]) && !Dynamic(types[i])
    requires Decode(types, a).Ok? && Decode(types, a) == Decode(types, b)
    ensures |a| >= WORD * |types| && |b| >= WORD * |types|
    ensures a[..WORD * |types|] == b[..WORD * |types|]
  {
    if |types| > 0 {
      var last := |types| - 1;
      DecodeElements(types, a, 0, last);
      DecodeElements(types, b, 0, last);
    }
    forall k | 0 <= k < WORD * |types|
      ensures a[k] == b[k]
    {
      var i := k / WORD;
      HeadWordsAgree(types, a, b, i);
      assert a[k] == a[WORD * i..WORD * i + WORD][k - WORD * i];
      assert b[k] == b[WORD * i..WORD * i + WORD][k - WORD * i];
    }
  }

  // ---------------------------------------------------------------- the decoder inverts the encoding

  /** One argument of a canonical encoding, possibly followed by more bytes, decodes to its value. */
  lemma {:induction false} ArgumentRoundTrip(types: seq<AbiType>, values: seq<AbiValue>, suffix: Bytes, i: nat)
    requires HaveTypes(types, values) && i < |types|
    requires |Encode(types, values)| < Pow256(WORD)
    ensures DecodeArgument(types[i], Encode(types, values) + suffix, i) == Ok(values[i])
  {
    var body := Encode(types, values) + suffix;
    HeadInBody(types, values, suffix, i);
    if Dynamic(types[i]) {
      TailInBody(types, values, suffix, i);
      PayloadRoundTrip(body, TailOffset(types, values, i), types[i], values[i]);
    } else {
      StaticRoundTrip(types[i], values[i]);
    }
  }

  lemma {:induction false} HeadInBody(types: seq<AbiType>, values: seq<AbiValue>, suffix: Bytes, i: nat)
    requires HaveTypes(types, values) && i < |types|
    ensures Word(Encode(types, values) + suffix, WORD * i)
            == Ok(Head(types[i], values[i], TailOffset(types, values, i)))
  {
    var hs := HeadList(types, values);
    var heads, tails := Concat(hs), Concat(TailList(types, values));
    ConcatAt(hs, i);
    ConcatLength(hs[..i], WORD);
    SliceLeft(heads + tails, suffix, WORD * i, WORD * i + WORD);
    SliceLeft(heads, tails, WORD * i, WORD * i + WORD);
  }

  lemma {:induction false} TailInBody(types: seq<AbiType>, values: seq<AbiValue>, suffix: Bytes, i: nat)
    requires HaveTypes(types, values) && i < |types|
    ensures var offset, n := TailOffset(types, values, i), |Tail(types[i], values[i])|;
            && offset + n <= |Encode(types, values)|
            && (Encode(types, values) + suffix)[offset..offset + n] == Tail(types[i], values[i])
  {
    var ts := TailList(types, values);
    var heads, tails := Concat(HeadList(types, values)), Concat(ts);
    var offset, n := TailOffset(types, values, i), |ts[i]|;
    ConcatLength(HeadList(types, values), WORD);
    ConcatAt(ts, i);
    SliceLeft(heads + tails, suffix, offset, offset + n);
    SliceRight(heads, tails, offset, offset + n);
  }

  lemma {:induction false} PayloadRoundTrip(body: Bytes, offset: nat, t: AbiType, v: AbiValue)
    requires HasType(t, v) && Dynamic(t)
    requires offset + |Tail(t, v)| < Pow256(WORD)
    requires offset + |Tail(t, v)| <= |body| && body[offset..offset + |Tail(t, v)|] == Tail(t, v)
    ensures DecodeDynamic(t, body, ToBytes(offset, WORD)) == Ok(v)
  {
    hide BigEndian, ToBytes, Pow256, Padding, Zeros;
    var p := Payload(v);
    ThreeParts(body, offset, ToBytes(|p|, WORD), p, Zeros(Padding(|p|)));
    BigEndianOfToBytes(offset, WORD);
    BigEndianOfToBytes(|p|, WORD);
  }

  lemma {:induction false} ThreeParts(body: Bytes, offset: nat, a: Bytes, b: Bytes, c: Bytes)
    requires offset + |a + b + c| <= |body| && body[offset..offset + |a + b + c|] == a + b + c
    ensures body[offset..offset + |a|] == a
    ensures body[offset + |a|..offset + |a| + |b|] == b
  {
    var hi := offset + |a + b + c|;
    SliceOfSlice(body, offset, hi, 0, |a|);
    SliceLeft(a + b, c, 0, |a|);
    SliceLeft(a, b, 0, |a|);
    SliceOfSlice(body, offset, hi, |a|, |a| + |b|);
    SliceLeft(a + b, c, |a|, |a| + |b|);
    SliceRight(a, b, |a|, |a| + |b|);
  }

  lemma {:induction false} DecodeFromElements(types: seq<AbiType>, values: seq<AbiValue>, body: Bytes, index: nat)
    requires |values| == |types| && index <= |types|
    requires forall i :: index <= i < |types| ==> DecodeArgument(types[i], body, i) == Ok(values[i])
    ensures DecodeFrom(types, body, index) == Ok(values[index..])
    decreases |types| - index
  {
    if index < |types| {
      DecodeFromElements(types, values, body, index + 1);
      assert [values[index]] + values[index + 1..] == values[index..];
    }
  }

  /** Two to the power of 256: the offsets and lengths a word can hold. */
  // ---------------------------------------------------------------- the decoder, exactly

  /** The head word of an argument spells the value: a static value in its canonical form, a text or a
      byte string as the bytes at the offset, after a word with their number. An array is only noted. */
  ghost predicate Spells(t: AbiType, body: Bytes, index: nat, v: AbiValue) {
    && WORD * (index + 1) <= |body|
    && var head := body[WORD * index..WORD * (index + 1)];
       match t
       case Array => v == Present
       case String => v.Text? && Delimited(body, BigEndian(head), v.text)
       case DynBytes => v.Hex? && Delimited(body, BigEndian(head), v.bytes)
       case _ => Supported(t) && HasType(t, v) && head == EncodeStatic(t, v)
  }

  /** The word at the offset says how many bytes follow, and those are the given ones. */
  predicate Delimited(body: Bytes, offset: nat, raw: Bytes) {
    && offset + WORD + |raw| <= |body|
    && BigEndian(body[offset..offset + WORD]) == |raw| && body[offset + WORD..offset + WORD + |raw|] == raw
  }

  lemma {:induction false} PayloadIsDelimited(body: Bytes, head: Bytes, raw: Bytes)
    requires |head| == WORD
    ensures DecodePayload(body, head) == Ok(raw) <==> Delimited(body, BigEndian(head), raw)
  {
    hide BigEndian;
  }

  lemma {:induction false} ArgumentExactly(t: AbiType, body: Bytes, index: nat, v: AbiValue)
    requires Supported(t) || t.Array?
    ensures DecodeArgument(t, body, index) == Ok(v) <==> Spells(t, body, index, v)
  {
    hide DecodeStatic, DecodePayload, EncodeStatic, HasType, Delimited;
    if WORD * (index + 1) <= |body| {
      var head := body[WORD * index..WORD * (index + 1)];
      if Dynamic(t) {
        if v.Text? {
          PayloadIsDelimited(body, head, v.text);
        }
        if v.Hex? {
          PayloadIsDelimited(body, head, v.bytes);
        }
      } else if !t.Array? {
        if DecodeStatic(t, head) == Ok(v) {
          StaticCanonical(t, head);
        }
        if HasType(t, v) && head == EncodeStatic(t, v) {
          StaticRoundTrip(t, v);
        }
      }
    }
  }

  /** Decoding accepts exactly the data whose every head word spells a value, and returns those values. */
  lemma {:induction false} DecodesExactly(types: seq<AbiType>, body: Bytes, values: seq<AbiValue>)
    requires forall i :: 0 <= i < |types| ==> Supported(types[i]) || types[i].Array?
    ensures Decode(types, body) == Ok(values) <==>
            |values| == |types| && forall i :: 0 <= i < |types| ==> Spells(types[i], body, i, values[i])
  {
    hide DecodeArgument, Spells, DecodeFrom, Supported;
    if |values| == |types| {
      forall i | 0 <= i < |types|
        ensures DecodeArgument(types[i], body, i) == Ok(values[i]) <==> Spells(types[i], body, i, values[i])
      {
        ArgumentExactly(types[i], body, i, values[i]);
      }
      if Decode(types, body) == Ok(values) {
        forall i | 0 <= i < |types|
          ensures DecodeArgument(types[i], body, i) == Ok(values[i])
        {
          DecodeElements(types, body, 0, i);
        }
      }
      if forall i :: 0 <= i < |types| ==> DecodeArgument(types[i], body, i) == Ok(values[i]) {
        DecodeFromElements(types, values, body, 0);
      }
    }
  }

  const WORD_LIMIT: nat := 0x1_0000000000000000_0000000000000000_0000000000000000_0000000000000000

  lemma {:induction false} WordLimit()
    ensures Pow256(WORD) == WORD_LIMIT
  {
    assert Pow256(8) == 0x1_0000000000000000;
    assert Pow256(16) == 0x1_0000000000000000_0000000000000000;
    assert Pow256(24) == 0x1_0000000000000000_0000000000000000_0000000000000000;
  }

  /** Decoding the canonical encoding returns the encoded values, whatever bytes follow it. The
      bound says that every offset and length fits its 256-bit word, without which the encoding
      does not exist. */
  lemma {:induction false} DecodeInvertsEncode(types: seq<AbiType>, values: seq<AbiValue>, suffix: Bytes)
    requires HaveTypes(types, values)
    requires |Encode(types, values)| < WORD_LIMIT
    ensures Decode(types, Encode(types, values) + suffix) == Ok(values)
  {
    WordLimit();
    var body := Encode(types, values) + suffix;
    forall i | 0 <= i < |types|
      ensures DecodeArgument(types[i], body, i) == Ok(values[i])
    {
      ArgumentRoundTrip(types, values, suffix, i);
    }
    DecodeFromElements(types, values, body, 0);
  }

  // ---------------------------------------------------------------- cheatcode calldata

  datatype Signature = Signature(name: string, types: seq<AbiType>)

  /** Four-byte selector to signature; the selectors are Keccak prefixes and stay symbolic. */
  type SelectorTable = map<Bytes, Signature>

  datatype DecodedCheatcode = DecodedCheatcode(name: string, args: Option<seq<AbiValue>>)

  const HEX_DIGITS := "0123456789abcdef"

  function HexText(b: Bytes): string {
    if b == [] then [] else [HEX_DIGITS[b[0] / 16], HEX_DIGITS[b[0] % 16]] + HexText(b[1..])
  }

  function NameForSelector(table: SelectorTable, selector: Option<Bytes>): string {
    match selector
    case None => "unknown"
    case Some(s) => if s in table then table[s].name else "unknown_0x" + HexText(s)
  }

  function DecodeCheatcode(table: SelectorTable, calldata: Bytes): Result<DecodedCheatcode> {
    if |calldata| < 4 then Ok(DecodedCheatcode("unknown", None))
    else
      var selector := calldata[..4];
      if selector !in table then Ok(DecodedCheatcode("unknown_0x" + HexText(selector), None))
      else
        match Decode(table[selector].types, calldata[4..])
        case Reject => Reject
        case Ok(args) => Ok(DecodedCheatcode(table[selector].name, Some(args)))
  }

  /** A canonically encoded cheatcode call is recognised with its name and arguments. */
  lemma {:induction false} CheatcodeRoundTrip(table: SelectorTable, selector: Bytes, values: seq<AbiValue>)
    requires |selector| == 4 && selector in table
    requires HaveTypes(table[selector].types, values)
    requires |Encode(table[selector].types, values)| < WORD_LIMIT
    ensures DecodeCheatcode(table, selector + Encode(table[selector].types, values))
            == Ok(DecodedCheatcode(table[selector].name, Some(values)))
  {
    var body := Encode(table[selector].types, values);
    assert (selector + body)[..4] == selector && (selector + body)[4..] == body == body + [];
    DecodeInvertsEncode(table[selector].types, values, []);
  }
}
