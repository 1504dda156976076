/**
  Decoding of the processor identification that the report shows: the
  vendor string of CPUID leaf 0 and the version fields of leaf 1 (EAX), as
  laid out in section 3.2 of the Intel 64 and IA-32 Architectures Software
  Developer's Manual, Volume 2A (instruction CPUID, version information).
*/
module CpuId {
  import opened Bits

  // ---------------------------------------------------------------------------
  // Vendor string
  // ---------------------------------------------------------------------------

  /** The bytes of a 32-bit register in memory order (least significant first). */
  function LeBytes(x: uint32): (b: seq<uint8>)
    ensures |b| == 4
  {
    [x % 0x100, x / 0x100 % 0x100, x / 0x1_0000 % 0x100, x / 0x100_0000 % 0x100]
  }

  /** The 32-bit value whose memory bytes are `b`. */
  function LeWord(b: seq<uint8>): (x: uint32)
    requires |b| == 4
  {
    var b0, b1, b2, b3: int := b[0], b[1], b[2], b[3];
    b0 + 0x100 * b1 + 0x1_0000 * b2 + 0x100_0000 * b3
  }

  /** `x == q * k + r` with `0 <= r < k` fixes the quotient and the remainder. */
  lemma DivModOf(x: int, k: int, q: int, r: int)
    requires k > 0 && 0 <= r < k && x == q * k + r
    ensures x / k == q && x % k == r
  {
    var q0, r0 := x / k, x % k;
    assert (q - q0) * k == r0 - r;
    NonzeroMultiple(q - q0, k);
  }

  /** A nonzero multiple of a positive `k` is at least `k` away from zero. */
  lemma NonzeroMultiple(m: int, k: int)
    requires k > 0
    ensures m >= 1 ==> m * k >= k
    ensures m <= -1 ==> m * k <= -k
  {
    if m >= 1 {
      assert m * k == k + (m - 1) * k;
      assert (m - 1) * k >= 0;
    } else if m <= -1 {
      assert m * k == -k + (m + 1) * k;
      assert (m + 1) * k <= 0;
    }
  }

  /** Reading a register's bytes back gives the register. */
  lemma {:induction false} WordOfBytes(x: uint32)
    ensures LeWord(LeBytes(x)) == x
  {
    var b := LeBytes(x);
    DivModOf(x, 0x100, x / 0x100, b[0]);
    DivModOf(x / 0x100, 0x100, x / 0x1_0000, b[1]);
    DivModOf(x / 0x1_0000, 0x100, x / 0x100_0000, b[2]);
    DivModOf(x, 0x1_0000, x / 0x1_0000, x % 0x1_0000);
    DivModOf(x, 0x100_0000, x / 0x100_0000, x % 0x100_0000);
  }

  /** Splitting a word into bytes gives the bytes it was built from. */
  lemma {:induction false} BytesOfWord(b: seq<uint8>)
    requires |b| == 4
    ensures LeBytes(LeWord(b)) == b
  {
    var x := LeWord(b);
    var b0, b1, b2, b3: int := b[0], b[1], b[2], b[3];
    DivModOf(x, 0x100, b1 + 0x100 * b2 + 0x1_0000 * b3, b0);
    DivModOf(x, 0x1_0000, b2 + 0x100 * b3, b0 + 0x100 * b1);
    DivModOf(x, 0x100_0000, b3, b0 + 0x100 * b1 + 0x1_0000 * b2);
    DivModOf(b1 + 0x100 * b2 + 0x1_0000 * b3, 0x100, b2 + 0x100 * b3, b1);
    DivModOf(b2 + 0x100 * b3, 0x100, b3, b2);
    DivModOf(b3, 0x100, 0, b3);
  }

  /**
    The 12-character vendor identification of leaf 0, formatted from the
    bytes of EBX, then EDX, then ECX.
  */
  function Vendor(ebx: uint32, ecx: uint32, edx: uint32): (v: seq<uint8>)
    ensures |v| == 12
    ensures LeWord(v[0..4]) == ebx && LeWord(v[4..8]) == edx && LeWord(v[8..12]) == ecx
  {
    WordOfBytes(ebx);
    WordOfBytes(edx);
    WordOfBytes(ecx);
    var v := LeBytes(ebx) + LeBytes(edx) + LeBytes(ecx);
    assert v[0..4] == LeBytes(ebx) && v[4..8] == LeBytes(edx) && v[8..12] == LeBytes(ecx);
    v
  }

  /** The characters of a byte string. */
  function Chars(b: seq<uint8>): (s: string)
    ensures |s| == |b| && forall i | 0 <= i < |b| :: s[i] as int == b[i]
  {
    seq(|b|, i requires 0 <= i < |b| => b[i] as char)
  }

  /** The register values an Intel processor returns give "GenuineIntel". */
  lemma GenuineIntelVendor()
    ensures Chars(Vendor(0x756E_6547, 0x6C65_746E, 0x4965_6E69)) == "GenuineIntel"
  {
    var ebx, edx, ecx := LeBytes(0x756E_6547), LeBytes(0x4965_6E69), LeBytes(0x6C65_746E);
    assert ebx == [0x47, 0x65, 0x6E, 0x75];   // "Genu"
    assert edx == [0x69, 0x6E, 0x65, 0x49];   // "ineI"
    assert ecx == [0x6E, 0x74, 0x65, 0x6C];   // "ntel"
    var v := Vendor(0x756E_6547, 0x6C65_746E, 0x4965_6E69);
    assert v == ebx + edx + ecx;
  }

  // ---------------------------------------------------------------------------
  // Version information (leaf 1, EAX)
  // ---------------------------------------------------------------------------

  /** Bits 3:0. */
  function Stepping(eax: uint32): int { eax % 0x10 }
  /** Bits 7:4. */
  function BaseModel(eax: uint32): int { eax / 0x10 % 0x10 }
  /** Bits 11:8. */
  function BaseFamily(eax: uint32): int { eax / 0x100 % 0x10 }
  /** Bits 19:16. */
  function ExtendedModel(eax: uint32): int { eax / 0x1_0000 % 0x10 }
  /** Bits 27:20. */
  function ExtendedFamily(eax: uint32): int { eax / 0x10_0000 % 0x100 }

  /**
    The displayed family: the base family, with the extended family added
    when the base family is 0xF.
  */
  function DisplayFamily(eax: uint32): (f: int)
    ensures 0 <= f <= 0xF + 0xFF
    ensures f >= 0xF <==> BaseFamily(eax) == 0xF
  {
    if BaseFamily(eax) != 0xF then BaseFamily(eax)
    else BaseFamily(eax) + ExtendedFamily(eax)
  }

  /**
    The displayed model as the program computes it: for families 6 and 0xF,
    `((eax >> 15) & 0x1F) << 4` plus the base model; otherwise the base model.
    The extended term takes bits 19:15 instead of bits 19:16.
  */
  function DisplayModelAsWritten(eax: uint32): (model: int)
    ensures 0 <= model < 0x200
    ensures model % 0x10 == BaseModel(eax)
    ensures !(BaseFamily(eax) == 6 || BaseFamily(eax) == 0xF) ==> model == DisplayModel(eax)
  {
    if BaseFamily(eax) == 6 || BaseFamily(eax) == 0xF then
      (eax / 0x8000 % 0x20) * 0x10 + BaseModel(eax)
    else BaseModel(eax)
  }

  /**
    The displayed model the manual defines: for families 6 and 0xF,
    `(extended model << 4) + model`; otherwise the model. It fits in one byte.
  */
  function DisplayModel(eax: uint32): (model: int)
    ensures 0 <= model < 0x100
    ensures model % 0x10 == BaseModel(eax)
  {
    if BaseFamily(eax) == 6 || BaseFamily(eax) == 0xF then
      ExtendedModel(eax) * 0x10 + BaseModel(eax)
    else BaseModel(eax)
  }

  /** The displayed stepping, `eax & 0xF`. */
  function DisplayStepping(eax: uint32): (s: int)
    ensures 0 <= s < 0x10
  {
    Stepping(eax)
  }

  /** The version fields of leaf 1; the reserved bits 15:14 and 31:28 are zero. */
  datatype Signature = Signature(stepping: int, model: int, family: int, processorType: int,
                                 extendedModel: int, extendedFamily: int)
  {
    predicate Valid()
    {
      && 0 <= stepping < 0x10 && 0 <= model < 0x10 && 0 <= family < 0x10
      && 0 <= processorType < 4 && 0 <= extendedModel < 0x10 && 0 <= extendedFamily < 0x100
    }
  }

  /** The EAX value that carries the given fields. */
  function Encode(s: Signature): (eax: uint32)
    requires s.Valid()
  {
    s.stepping + 0x10 * s.model + 0x100 * s.family + 0x1000 * s.processorType
      + 0x1_0000 * s.extendedModel + 0x10_0000 * s.extendedFamily
  }

  /** Every field reads back from the EAX value that carries it. */
  lemma {:induction false} DecodeEncode(s: Signature)
    requires s.Valid()
    ensures var eax := Encode(s);
      && Stepping(eax) == s.stepping && BaseModel(eax) == s.model
      && BaseFamily(eax) == s.family && ExtendedModel(eax) == s.extendedModel
      && ExtendedFamily(eax) == s.extendedFamily
  {
    var eax := Encode(s);
    var above16 := s.extendedModel + 0x10 * s.extendedFamily;
    var above8 := s.family + 0x10 * s.processorType + 0x100 * above16;
    var above4 := s.model + 0x10 * above8;
    DivModOf(eax, 0x10, above4, s.stepping);
    DivModOf(eax, 0x100, above8, s.stepping + 0x10 * s.model);
    DivModOf(eax, 0x1_0000, above16, s.stepping + 0x10 * s.model + 0x100 * s.family + 0x1000 * s.processorType);
    DivModOf(eax, 0x10_0000, s.extendedFamily,
      s.stepping + 0x10 * s.model + 0x100 * s.family + 0x1000 * s.processorType + 0x1_0000 * s.extendedModel);
    DivModOf(above4, 0x10, above8, s.model);
    DivModOf(above8, 0x10, s.processorType + 0x10 * above16, s.family);
    DivModOf(above16, 0x10, s.extendedFamily, s.extendedModel);
    DivModOf(s.extendedFamily, 0x100, 0, s.extendedFamily);
  }

  /**
    The displayed family, model and stepping of an EAX value built from its
    fields: the family is extended only for base family 0xF, and the model
    is extended for families 6 and 0xF by the extended model times 16.
  */
  lemma DisplayOfEncoded(s: Signature)
    requires s.Valid()
    ensures DisplayFamily(Encode(s)) == if s.family == 0xF then 0xF + s.extendedFamily else s.family
    ensures DisplayModel(Encode(s))
      == if s.family == 6 || s.family == 0xF then 0x10 * s.extendedModel + s.model else s.model
    ensures DisplayStepping(Encode(s)) == s.stepping
  {
    DecodeEncode(s);
  }

  /**
    The program's model: with bit 15 reserved as zero, the extended model is
    counted twice over (times 32 instead of 16) for families 6 and 0xF.
  */
  lemma {:induction false} DisplayModelAsWrittenDoubles(s: Signature)
    requires s.Valid()
    ensures DisplayModelAsWritten(Encode(s))
      == if s.family == 6 || s.family == 0xF then 0x20 * s.extendedModel + s.model else s.model
  {
    DecodeEncode(s);
    var low := s.stepping + 0x10 * s.model + 0x100 * s.family + 0x1000 * s.processorType;
    BitsFrom15(Encode(s), low, s.extendedModel, s.extendedFamily);
  }

  /** With bits 15:14 clear, bits 19:15 hold twice the extended model. */
  lemma BitsFrom15(eax: int, low: int, extendedModel: int, extendedFamily: int)
    requires 0 <= low < 0x4000 && 0 <= extendedModel < 0x10 && 0 <= extendedFamily
    requires eax == low + 0x1_0000 * extendedModel + 0x10_0000 * extendedFamily
    ensures eax / 0x8000 % 0x20 == 2 * extendedModel
  {
    DivModOf(eax, 0x8000, 2 * extendedModel + 0x20 * extendedFamily, low);
    DivModOf(2 * extendedModel + 0x20 * extendedFamily, 0x20, extendedFamily, 2 * extendedModel);
  }

  /**
    A family-6 part with extended model 9 and model 0xE (signature 0x906EA)
    is shown as model 0x12E instead of 0x9E.
  */
  lemma DisplayModelAsWrittenMisreads()
    ensures DisplayModelAsWritten(0x0009_06EA) == 0x12E
    ensures DisplayModel(0x0009_06EA) == 0x9E
  {
    var s := Signature(0xA, 0xE, 6, 0, 9, 0);
    assert Encode(s) == 0x0009_06EA;
    DisplayModelAsWrittenDoubles(s);
    DisplayOfEncoded(s);
  }
}
