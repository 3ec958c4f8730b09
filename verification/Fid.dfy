/** Feature ids: slot and signature packed into one word, and the mixer behind numeric tensor ids. */
module Fid {
  import opened Outcomes
  import opened Bits
  import opened Seqs
  import Text

  datatype FidVersion = V1 | V2 {
    function SlotBits(): nat {
      match this
      case V1 => 10
      case V2 => 15
    }

    function SignatureBits(): nat {
      match this
      case V1 => 54
      case V2 => 48
    }

    function MaxSlot(): int {
      Pow2(SlotBits()) - 1
    }

    function SignatureMask(): nat {
      Pow2(SignatureBits()) - 1
    }

    /** The number of signatures: 2 to the power of the signature bits. */
    function Modulus(): nat {
      match this
      case V1 => 0x40_0000_0000_0000
      case V2 => 0x1_0000_0000_0000
    }

    /** One past the largest word that may be unpacked. */
    function WordLimit(): nat {
      match this
      case V1 => 0x1_0000_0000_0000_0000
      case V2 => 0x8000_0000_0000_0000
    }
  }

  datatype FidError = SlotOutOfRange | NegativeSignature | NotAWord | ReservedBit | NotIntegers

  const SEPARATOR := 31 as char

  /** A tensor is salted with the signature of its slot, in a namespace of its own. */
  function SaltPayload(slot: nat, namespace: string): string {
    Payload("tensor:" + namespace, Text.Decimal(slot))
  }

  /** What is digested: namespace and value around a unit separator. */
  function Payload(namespace: string, raw: string): string {
    namespace + [SEPARATOR] + raw
  }

  /** `digest` is the 8-byte keyed hash of a payload, read as a big-endian integer. */
  datatype FidCodec = FidCodec(version: FidVersion, digest: string -> nat) {
    function Pack(slot: int, signature: int): Result<nat, FidError> {
      if !(0 <= slot <= version.MaxSlot()) then Failure(SlotOutOfRange)
      else if signature < 0 then Failure(NegativeSignature)
      else Success(Or(Shl(slot, version.SignatureBits()), And(signature, version.SignatureMask())))
    }

    function Unpack(fid: int): Result<(nat, nat), FidError> {
      if fid < 0 || fid >= 0x1_0000_0000_0000_0000 then Failure(NotAWord)
      else if version.V2? && Shr(fid, 63) != 0 then Failure(ReservedBit)
      else Success((Shr(fid, version.SignatureBits()), And(fid, version.SignatureMask())))
    }

    function Signature(namespace: string, raw: string): nat {
      And(digest(Payload(namespace, raw)), version.SignatureMask())
    }

    function Encode(slot: int, namespace: string, raw: string): Result<nat, FidError> {
      Pack(slot, Signature(namespace, raw))
    }

    /** One element of `encode_numeric_tensor`: 64-bit two's complement, products wrapping around. */
    function Mix(raw: int, salt: nat): nat {
      var mask := version.SignatureMask();
      var values := And(Xor(Word(raw), salt), mask);
      And(XorShift(Round(Round(values, mask), mask), 16), mask)
    }

    static function Round(v: nat, mask: nat): nat {
      And(Word(XorShift(v, 16) * MULTIPLIER), mask)
    }

    function Salt(slot: nat, namespace: string): nat {
      And(digest(SaltPayload(slot, namespace)), version.SignatureMask())
    }

    /** Elements are signed 64-bit integers, so a word with its highest bit set comes out negative. */
    function EncodeNumericTensor(slot: int, namespace: string, raw: Tensor): Result<seq<int>, FidError> {
      if !(0 <= slot <= version.MaxSlot()) then Failure(SlotOutOfRange)
      else if raw.NotInteger? then Failure(NotIntegers)
      else
        var salt := Salt(slot, namespace);
        Success(Map(raw.values, (value: int) => Signed(Or(Shl(slot, version.SignatureBits()), Mix(value, salt)))))
    }
  }

  const MULTIPLIER: nat := 0x045D9F3B

  /** A tensor of some integer dtype holds 64-bit values; one of a bool or float dtype is refused. */
  datatype Tensor = Integers(values: seq<int>) | NotInteger

  function ConvertV1ToV2(digest: string -> nat, fid: int): Result<nat, FidError> {
    match FidCodec(V1, digest).Unpack(fid)
    case Failure(e) => Failure(e)
    case Success((slot, signature)) => FidCodec(V2, digest).Pack(slot, signature)
  }

  lemma ModulusIsPow2(version: FidVersion)
    ensures version.Modulus() == Pow2(version.SignatureBits())
    ensures (version.MaxSlot() + 1) * version.Modulus() == version.WordLimit()
    ensures version.MaxSlot() == (if version.V1? then 1023 else 32767)
  {
    Pow2Literals();
  }

  lemma Masked(version: FidVersion, x: nat)
    ensures And(x, version.SignatureMask()) == x % version.Modulus()
    ensures Shr(x, version.SignatureBits()) == x / version.Modulus()
  {
    ModulusIsPow2(version);
    MaskIsMod(x, version.SignatureBits());
  }

  lemma Joined(version: FidVersion, slot: nat, low: nat)
    requires low < version.Modulus()
    ensures Or(Shl(slot, version.SignatureBits()), low) == slot * version.Modulus() + low
  {
    ModulusIsPow2(version);
    PackedFields(slot, low, version.SignatureBits());
  }

  lemma PackValue(codec: FidCodec, slot: int, signature: int)
    requires 0 <= slot <= codec.version.MaxSlot() && signature >= 0
    ensures codec.Pack(slot, signature) == Success(slot * codec.version.Modulus() + signature % codec.version.Modulus())
  {
    Masked(codec.version, signature);
    Joined(codec.version, slot, signature % codec.version.Modulus());
  }

  lemma ReservedBitIsClear(fid: nat)
    ensures Shr(fid, 63) == 0 <==> fid < 0x8000_0000_0000_0000
  {
    MaskIsMod(fid, 63);
    Pow2Literals();
  }

  lemma UnpackValue(codec: FidCodec, fid: int)
    ensures codec.Unpack(fid).Success? <==> 0 <= fid < codec.version.WordLimit()
    ensures codec.Unpack(fid).Success? ==>
      codec.Unpack(fid).value == (fid / codec.version.Modulus(), fid % codec.version.Modulus())
  {
    if fid >= 0 {
      ReservedBitIsClear(fid);
      Masked(codec.version, fid);
    }
  }

  lemma PartsFit(version: FidVersion, slot: nat, low: nat)
    requires slot <= version.MaxSlot() && low < version.Modulus()
    ensures slot * version.Modulus() + low < version.WordLimit()
    ensures (slot * version.Modulus() + low) / version.Modulus() == slot
    ensures (slot * version.Modulus() + low) % version.Modulus() == low
  {
    ModulusIsPow2(version);
  }

  /** Packing succeeds exactly on an in-range slot and a non-negative signature, and unpacking gives back the
      slot and the signature's low bits. Under V2 the reserved bit stays clear. */
  lemma PackThenUnpack(codec: FidCodec, slot: int, signature: int)
    ensures codec.Pack(slot, signature).Success? <==> 0 <= slot <= codec.version.MaxSlot() && signature >= 0
    ensures codec.Pack(slot, signature).Success? ==>
      var fid := codec.Pack(slot, signature).value;
      fid < codec.version.WordLimit() && codec.Unpack(fid) == Success((slot, signature % codec.version.Modulus()))
  {
    if 0 <= slot <= codec.version.MaxSlot() && signature >= 0 {
      var low := signature % codec.version.Modulus();
      PackValue(codec, slot, signature);
      PartsFit(codec.version, slot, low);
      UnpackValue(codec, slot * codec.version.Modulus() + low);
    }
  }

  /** Unpacking loses nothing: the parts pack back into the same word. */
  lemma UnpackThenPack(codec: FidCodec, fid: int)
    ensures codec.Unpack(fid).Success? <==> 0 <= fid < codec.version.WordLimit()
    ensures codec.Unpack(fid).Success? ==>
      var (slot, signature) := codec.Unpack(fid).value;
      signature < codec.version.Modulus() && codec.Pack(slot, signature) == Success(fid)
  {
    UnpackValue(codec, fid);
    if codec.Unpack(fid).Success? {
      PartsInRange(codec.version, fid);
      PackValue(codec, fid / codec.version.Modulus(), fid % codec.version.Modulus());
    }
  }

  lemma PartsInRange(version: FidVersion, fid: nat)
    requires fid < version.WordLimit()
    ensures fid / version.Modulus() <= version.MaxSlot()
    ensures fid / version.Modulus() * version.Modulus() + fid % version.Modulus() == fid
    ensures fid % version.Modulus() % version.Modulus() == fid % version.Modulus()
  {
    ModulusIsPow2(version);
  }

  /** Conversion keeps the slot and drops the six upper signature bits; nothing else is lost. */
  lemma ConversionKeepsLowBits(digest: string -> nat, fid: int)
    ensures ConvertV1ToV2(digest, fid).Success? <==> 0 <= fid < V1.WordLimit()
    ensures ConvertV1ToV2(digest, fid).Success? ==>
      FidCodec(V2, digest).Unpack(ConvertV1ToV2(digest, fid).value)
        == Success((fid / V1.Modulus(), fid % V1.Modulus() % V2.Modulus()))
  {
    UnpackValue(FidCodec(V1, digest), fid);
    if 0 <= fid < V1.WordLimit() {
      ModulusIsPow2(V1);
      ModulusIsPow2(V2);
      PackThenUnpack(FidCodec(V2, digest), fid / V1.Modulus(), fid % V1.Modulus());
    }
  }

  // ---------------------------------------------------------------------------------------------
  // The mixer is a permutation of the signatures.

  /** The inverse of the multiplier modulo 2^bits. */
  function InverseMultiplier(version: FidVersion): nat {
    match version
    case V1 => 9327123074245107
    case V2 => 38448842793459
  }

  function Unmix(version: FidVersion, signature: nat, salt: nat): nat {
    var v4 := Unshift(version, signature);
    var v3 := v4 * InverseMultiplier(version) % version.Modulus();
    var v2 := Unshift(version, v3);
    var v1 := v2 * InverseMultiplier(version) % version.Modulus();
    Xor(Unshift(version, v1), salt)
  }

  function Unshift(version: FidVersion, y: nat): nat {
    UnXorShift(y, 16, version.SignatureBits())
  }

  lemma ShiftInvertible(version: FidVersion, x: nat)
    requires x < version.Modulus()
    ensures XorShift(x, 16) < version.Modulus() && Unshift(version, x) < version.Modulus()
    ensures Unshift(version, XorShift(x, 16)) == x
    ensures XorShift(Unshift(version, x), 16) == x
  {
    ModulusIsPow2(version);
    XorShiftInvertible(x, 16, version.SignatureBits());
  }

  /** Wrapping around at 64 bits does not disturb the bits below the mask. */
  lemma WrapThenMask(version: FidVersion, x: int)
    ensures And(Word(x), version.SignatureMask()) == x % version.Modulus()
  {
    Masked(version, Word(x));
    WordModulo(version, x);
  }

  lemma MultiplierInvertible(version: FidVersion, x: nat)
    requires x < version.Modulus()
    ensures var m := version.Modulus();
      && (x * MULTIPLIER % m) * InverseMultiplier(version) % m == x
      && (x * InverseMultiplier(version) % m) * MULTIPLIER % m == x
  {
    var t := if version.V1? then 37923011 else 10005029;
    MulInvertible(x, MULTIPLIER, InverseMultiplier(version), t, version.Modulus());
    MulInvertible(x, InverseMultiplier(version), MULTIPLIER, t, version.Modulus());
  }

  /** The first step sees the raw id modulo 2^bits alone. */
  lemma SaltedValue(version: FidVersion, raw: int, salt: nat)
    requires salt < version.Modulus()
    ensures And(Xor(Word(raw), salt), version.SignatureMask()) == Xor(raw % version.Modulus(), salt)
    ensures Xor(raw % version.Modulus(), salt) < version.Modulus()
  {
    ModulusIsPow2(version);
    Masked(version, Xor(Word(raw), salt));
    XorMod(Word(raw), salt, version.SignatureBits(), version.Modulus());
    WordModulo(version, raw);
  }

  lemma WordModulo(version: FidVersion, raw: int)
    ensures Word(raw) % version.Modulus() == raw % version.Modulus()
  {
    match version
    case V1 =>
    case V2 =>
  }

  /** One round on arithmetic modulo 2^bits. */
  function RoundMod(version: FidVersion, v: nat): nat {
    XorShift(v, 16) * MULTIPLIER % version.Modulus()
  }

  lemma RoundIsMod(version: FidVersion, v: nat)
    ensures FidCodec.Round(v, version.SignatureMask()) == RoundMod(version, v) < version.Modulus()
  {
    WrapThenMask(version, XorShift(v, 16) * MULTIPLIER);
  }

  lemma RoundInvertible(version: FidVersion, v: nat)
    requires v < version.Modulus()
    ensures Unshift(version, RoundMod(version, v) * InverseMultiplier(version) % version.Modulus()) == v
    ensures RoundMod(version, Unshift(version, v * InverseMultiplier(version) % version.Modulus())) == v
    ensures Unshift(version, v * InverseMultiplier(version) % version.Modulus()) < version.Modulus()
  {
    ShiftInvertible(version, v);
    MultiplierInvertible(version, XorShift(v, 16));
    MultiplierInvertible(version, v);
    ShiftInvertible(version, v * InverseMultiplier(version) % version.Modulus());
  }

  lemma MixIsRounds(codec: FidCodec, raw: int, salt: nat)
    requires salt < codec.version.Modulus()
    ensures var v0 := Xor(raw % codec.version.Modulus(), salt);
      codec.Mix(raw, salt) == XorShift(RoundMod(codec.version, RoundMod(codec.version, v0)), 16)
    ensures codec.Mix(raw, salt) < codec.version.Modulus()
  {
    var version := codec.version;
    var mask := version.SignatureMask();
    var v0 := Xor(raw % version.Modulus(), salt);
    var v2 := RoundMod(version, v0);
    var v4 := RoundMod(version, v2);
    SaltedValue(version, raw, salt);
    RoundIsMod(version, v0);
    RoundIsMod(version, v2);
    assert codec.Mix(raw, salt) == And(XorShift(v4, 16), mask);
    ShiftInvertible(version, v4);
    Masked(version, XorShift(v4, 16));
    SmallMod(version, XorShift(v4, 16));
  }

  /** Unmixing recovers the raw id modulo 2^bits. */
  lemma MixThenUnmix(codec: FidCodec, raw: int, salt: nat)
    requires salt < codec.version.Modulus()
    ensures codec.Mix(raw, salt) < codec.version.Modulus()
    ensures Unmix(codec.version, codec.Mix(raw, salt), salt) == raw % codec.version.Modulus()
  {
    var version := codec.version;
    MixIsRounds(codec, raw, salt);
    SaltedValue(version, raw, salt);
    var v0 := Xor(raw % version.Modulus(), salt);
    RoundInvertible(version, v0);
    RoundInvertible(version, RoundMod(version, v0));
    ShiftInvertible(version, RoundMod(version, RoundMod(version, v0)));
    XorCancels(raw % version.Modulus(), salt);
  }

  /** Every signature is reached: mixing what was unmixed gives it back. */
  lemma UnmixThenMix(codec: FidCodec, signature: nat, salt: nat)
    requires salt < codec.version.Modulus() && signature < codec.version.Modulus()
    ensures Unmix(codec.version, signature, salt) < codec.version.Modulus()
    ensures codec.Mix(Unmix(codec.version, signature, salt), salt) == signature
  {
    var version := codec.version;
    ShiftInvertible(version, signature);
    var v4 := Unshift(version, signature);
    RoundInvertible(version, v4);
    var v2 := Unshift(version, v4 * InverseMultiplier(version) % version.Modulus());
    RoundInvertible(version, v2);
    UnsaltedValue(version, Unshift(version, v2 * InverseMultiplier(version) % version.Modulus()), salt);
    MixIsRounds(codec, Unmix(version, signature, salt), salt);
  }

  lemma SmallMod(version: FidVersion, x: nat)
    requires x < version.Modulus()
    ensures x % version.Modulus() == x
  {
  }

  lemma UnsaltedValue(version: FidVersion, v0: nat, salt: nat)
    requires v0 < version.Modulus() && salt < version.Modulus()
    ensures Xor(v0, salt) < version.Modulus() && Xor(Xor(v0, salt) % version.Modulus(), salt) == v0
  {
    ModulusIsPow2(version);
    XorBounded(v0, salt, version.SignatureBits());
    SmallMod(version, Xor(v0, salt));
    XorCancels(v0, salt);
  }

  /** Two raw ids share a signature exactly when they agree modulo 2^bits. */
  lemma MixCollides(codec: FidCodec, a: int, b: int, salt: nat)
    requires salt < codec.version.Modulus()
    ensures codec.Mix(a, salt) == codec.Mix(b, salt) <==> a % codec.version.Modulus() == b % codec.version.Modulus()
  {
    MixThenUnmix(codec, a, salt);
    MixThenUnmix(codec, b, salt);
    MixIsRounds(codec, a, salt);
    MixIsRounds(codec, b, salt);
  }

  lemma SignatureFits(codec: FidCodec, namespace: string, raw: string)
    ensures codec.Signature(namespace, raw) < codec.version.Modulus()
  {
    Masked(codec.version, codec.digest(Payload(namespace, raw)));
  }

  // ---------------------------------------------------------------------------------------------
  // What signatures are taken of.

  /** Payloads tell namespaces and values apart as long as no namespace holds the separator. */
  lemma PayloadSeparates(n1: string, r1: string, n2: string, r2: string)
    requires SEPARATOR !in n1 && SEPARATOR !in n2
    ensures Payload(n1, r1) == Payload(n2, r2) <==> n1 == n2 && r1 == r2
  {
    if |n1| < |n2| {
      FirstSeparator(n1, r1, n2, r2);
    } else if |n2| < |n1| {
      FirstSeparator(n2, r2, n1, r1);
    } else if Payload(n1, r1) == Payload(n2, r2) {
      assert n1 == Payload(n1, r1)[..|n1|] && n2 == Payload(n2, r2)[..|n2|];
      assert r1 == Payload(n1, r1)[|n1| + 1..] && r2 == Payload(n2, r2)[|n2| + 1..];
    }
  }

  lemma FirstSeparator(n1: string, r1: string, n2: string, r2: string)
    requires SEPARATOR !in n2 && |n1| < |n2|
    ensures Payload(n1, r1) != Payload(n2, r2)
  {
    assert Payload(n1, r1)[|n1|] == SEPARATOR;
    assert Payload(n2, r2)[|n1|] == n2[|n1|];
  }

  /** A namespace that holds the separator can share its payload with another. */
  lemma PayloadMayRepeat() returns (n1: string, r1: string, n2: string, r2: string)
    ensures n1 != n2 && Payload(n1, r1) == Payload(n2, r2)
  {
    n1, r1, n2, r2 := "a", ['b', SEPARATOR, 'c'], ['a', SEPARATOR, 'b'], "c";
  }

  /** What a tensor's salt is a signature of tells every slot and namespace apart. */
  lemma SaltSeparates(n1: string, s1: nat, n2: string, s2: nat)
    ensures SaltPayload(s1, n1) == SaltPayload(s2, n2) <==> s1 == s2 && n1 == n2
  {
    var p1, p2, d1, d2 := "tensor:" + n1, "tensor:" + n2, Text.Decimal(s1), Text.Decimal(s2);
    Text.DecimalReadsBack(s1);
    Text.DecimalReadsBack(s2);
    assert |p1| + |d1| != |p2| + |d2| ==> |Payload(p1, d1)| != |Payload(p2, d2)|;
    if |p1| + |d1| == |p2| + |d2| && |d1| < |d2| {
      LastSeparator(p1, d1, p2, d2);
    } else if |p1| + |d1| == |p2| + |d2| && |d2| < |d1| {
      LastSeparator(p2, d2, p1, d1);
    } else if Payload(p1, d1) == Payload(p2, d2) {
      assert d1 == Payload(p1, d1)[|p1| + 1..] && d2 == Payload(p2, d2)[|p2| + 1..];
      assert p1 == Payload(p1, d1)[..|p1|] && p2 == Payload(p2, d2)[..|p2|];
      assert n1 == p1[7..] && n2 == p2[7..];
    }
  }

  lemma LastSeparator(n1: string, r1: string, n2: string, r2: string)
    requires SEPARATOR !in r2 && |r1| < |r2| && |n1| + |r1| == |n2| + |r2|
    ensures Payload(n1, r1) != Payload(n2, r2)
  {
    var i := |n1|;
    assert Payload(n1, r1)[i] == SEPARATOR;
    assert Payload(n2, r2)[i] == r2[i - |n2| - 1];
  }

  lemma TensorWordUnpacks(codec: FidCodec, slot: nat, value: int, salt: nat)
    requires slot <= codec.version.MaxSlot() && salt < codec.version.Modulus()
    ensures var word := Or(Shl(slot, codec.version.SignatureBits()), codec.Mix(value, salt));
      && word == slot * codec.version.Modulus() + codec.Mix(value, salt) < codec.version.WordLimit()
      && codec.Mix(value, salt) < codec.version.Modulus()
      && codec.Unpack(word) == Success((slot, codec.Mix(value, salt)))
  {
    hide *;
    MixIsRounds(codec, value, salt);
    SmallMod(codec.version, codec.Mix(value, salt));
    Joined(codec.version, slot, codec.Mix(value, salt));
    PackValue(codec, slot, codec.Mix(value, salt));
    PackThenUnpack(codec, slot, codec.Mix(value, salt));
  }

  /** The element read as a word unpacks; read as it is, it does unless a V1 slot reaches the sign bit. */
  lemma TensorFidUnpacks(codec: FidCodec, slot: nat, value: int, salt: nat)
    requires slot <= codec.version.MaxSlot() && salt < codec.version.Modulus()
    ensures var fid := Signed(Or(Shl(slot, codec.version.SignatureBits()), codec.Mix(value, salt)));
      && codec.Unpack(Word(fid)) == Success((slot, codec.Mix(value, salt)))
      && (codec.Unpack(fid).Success? <==> codec.version.V2? || slot < 512)
      && (codec.Unpack(fid).Success? ==> fid == Word(fid))
  {
    hide *;
    TensorWordSigned(codec, slot, value, salt);
    UnpackDomain(codec, Signed(Or(Shl(slot, codec.version.SignatureBits()), codec.Mix(value, salt))));
  }

  lemma UnpackDomain(codec: FidCodec, fid: int)
    ensures codec.Unpack(fid).Success? <==> 0 <= fid < codec.version.WordLimit()
  {
    UnpackValue(codec, fid);
  }

  lemma TensorWordSigned(codec: FidCodec, slot: nat, value: int, salt: nat)
    requires slot <= codec.version.MaxSlot() && salt < codec.version.Modulus()
    ensures var word := Or(Shl(slot, codec.version.SignatureBits()), codec.Mix(value, salt));
      && codec.Unpack(word) == Success((slot, codec.Mix(value, salt))) && Word(Signed(word)) == word
      && (0 <= Signed(word) < codec.version.WordLimit() <==> codec.version.V2? || slot < 512)
      && (0 <= Signed(word) ==> Signed(word) == word)
  {
    hide *;
    TensorWordUnpacks(codec, slot, value, salt);
    SignedWord(codec.version, slot, codec.Mix(value, salt));
  }

  lemma SignedWord(version: FidVersion, slot: nat, low: nat)
    requires slot <= version.MaxSlot() && low < version.Modulus()
    ensures var word := slot * version.Modulus() + low;
      && Word(Signed(word)) == word
      && (0 <= Signed(word) < version.WordLimit() <==> version.V2? || slot < 512)
      && (0 <= Signed(word) ==> Signed(word) == word)
  {
    ModulusIsPow2(version);
  }

  /** Numeric tensor ids, as words, unpack to their slot and mixed signature, so within a slot and namespace two of
      them are equal exactly when the raw ids agree modulo 2^bits. As the signed integers they are they unpack exactly
      if the slot leaves the sign bit clear: a V1 slot from 512 on makes them negative. */
  lemma TensorFidsUnpack(codec: FidCodec, slot: int, namespace: string, values: seq<int>)
    ensures var r := codec.EncodeNumericTensor(slot, namespace, Integers(values));
      && (r.Success? <==> 0 <= slot <= codec.version.MaxSlot())
      && (r.Success? ==>
            && |r.value| == |values|
            && (forall i :: 0 <= i < |values| ==>
                  && codec.Unpack(Word(r.value[i])) == Success((slot, codec.Mix(values[i], codec.Salt(slot, namespace))))
                  && (codec.Unpack(r.value[i]) == codec.Unpack(Word(r.value[i])) <==> codec.version.V2? || slot < 512))
            && (forall i, j :: 0 <= i < |values| && 0 <= j < |values| ==>
                  (r.value[i] == r.value[j] <==> values[i] % codec.version.Modulus() == values[j] % codec.version.Modulus())))
    ensures codec.EncodeNumericTensor(slot, namespace, NotInteger).Failure?
  {
    if 0 <= slot <= codec.version.MaxSlot() {
      var salt := codec.Salt(slot, namespace);
      SignatureFits(codec, "tensor:" + namespace, Text.Decimal(slot));
      var fids := codec.EncodeNumericTensor(slot, namespace, Integers(values)).value;
      forall i | 0 <= i < |values|
        ensures codec.Unpack(Word(fids[i])) == Success((slot, codec.Mix(values[i], salt)))
        ensures codec.Unpack(fids[i]) == codec.Unpack(Word(fids[i])) <==> codec.version.V2? || slot < 512
      {
        TensorFidUnpacks(codec, slot, values[i], salt);
      }
      forall i, j | 0 <= i < |values| && 0 <= j < |values|
        ensures fids[i] == fids[j] <==> values[i] % codec.version.Modulus() == values[j] % codec.version.Modulus()
      {
        MixCollides(codec, values[i], values[j], salt);
      }
    }
  }
}
