/**
 The renderer's record of the GL state vector and of face culling, kept to leave out redundant calls.
 The device is the few settings the record mirrors; a driver that caches nothing would set them all
 from the requested bits.
 */
module GlState {
  import opened Wrappers

  type Bits = bv64

  const GLS_SRCBLEND_BITS: Bits := 0xf
  const GLS_DSTBLEND_BITS: Bits := 0xf0
  const GLS_BLEND_BITS: Bits := 0xff
  const GLS_DEPTHMASK_TRUE: Bits := 0x100
  const GLS_POLYMODE_LINE: Bits := 0x1000
  const GLS_DEPTHTEST_DISABLE: Bits := 0x1_0000
  const GLS_DEPTHFUNC_EQUAL: Bits := 0x2_0000
  const GLS_DEPTHFUNC_GREATER: Bits := 0x4_0000
  const GLS_DEPTHFUNC_BITS: Bits := 0x6_0000

  datatype DepthFunc = Equal | Greater | LessOrEqual

  datatype Factor =
    | Zero | One
    | SrcColor | OneMinusSrcColor | DstColor | OneMinusDstColor
    | SrcAlpha | OneMinusSrcAlpha | DstAlpha | OneMinusDstAlpha | SrcAlphaSaturate

  datatype CullType = FrontSided | BackSided | TwoSided

  /** The device settings GL_State looks after. */
  datatype Device = Device(
    depthFunc: DepthFunc,
    blend: bool,
    srcFactor: Factor,
    dstFactor: Factor,
    depthMask: bool,
    lines: bool,
    depthTest: bool)

  // ---------------------------------------------------------------- what the bits ask for

  predicate Has(bits: Bits, mask: Bits) {
    bits & mask != 0
  }

  function DepthFuncOf(bits: Bits): DepthFunc {
    if bits & GLS_DEPTHFUNC_EQUAL != 0 then Equal
    else if bits & GLS_DEPTHFUNC_GREATER != 0 then Greater
    else LessOrEqual
  }

  function SrcFactorOf(bits: Bits): Option<Factor> {
    match bits & GLS_SRCBLEND_BITS
    case 1 => Some(Zero)
    case 2 => Some(One)
    case 3 => Some(DstColor)
    case 4 => Some(OneMinusDstColor)
    case 5 => Some(SrcAlpha)
    case 6 => Some(OneMinusSrcAlpha)
    case 7 => Some(DstAlpha)
    case 8 => Some(OneMinusDstAlpha)
    case 9 => Some(SrcAlphaSaturate)
    case _ => None
  }

  function DstFactorOf(bits: Bits): Option<Factor> {
    match bits & GLS_DSTBLEND_BITS
    case 0x10 => Some(Zero)
    case 0x20 => Some(One)
    case 0x30 => Some(SrcColor)
    case 0x40 => Some(OneMinusSrcColor)
    case 0x50 => Some(SrcAlpha)
    case 0x60 => Some(OneMinusSrcAlpha)
    case 0x70 => Some(DstAlpha)
    case 0x80 => Some(OneMinusDstAlpha)
    case _ => None
  }

  function BlendOf(bits: Bits): Bits {
    bits & GLS_BLEND_BITS
  }

  predicate HasFactors(bits: Bits) {
    SrcFactorOf(bits).Some? && DstFactorOf(bits).Some?
  }

  /** Either no blending, or a source and a destination factor that exist. */
  predicate ValidBlend(bits: Bits) {
    BlendOf(bits) == 0 || HasFactors(bits)
  }

  /** What a driver that caches nothing would have set up for the bits; factors matter only when blending. */
  ghost predicate Shows(d: Device, bits: Bits) {
    && d.depthFunc == DepthFuncOf(bits)
    && d.blend == (BlendOf(bits) != 0)
    && (d.blend ==> SrcFactorOf(bits) == Some(d.srcFactor) && DstFactorOf(bits) == Some(d.dstFactor))
    && d.depthMask == Has(bits, GLS_DEPTHMASK_TRUE)
    && d.lines == Has(bits, GLS_POLYMODE_LINE)
    && d.depthTest == !Has(bits, GLS_DEPTHTEST_DISABLE)
  }

  /** The factors last set are those of the stored bits, and blending now uses the stored bits. */
  ghost predicate Remembers(d: Device, bits: Bits, stored: Bits) {
    && (BlendOf(stored) != 0 ==> SrcFactorOf(stored) == Some(d.srcFactor) && DstFactorOf(stored) == Some(d.dstFactor))
    && (BlendOf(bits) != 0 ==> BlendOf(stored) == BlendOf(bits))
  }

  const SRC_FACTORS: seq<Factor> :=
    [Zero, One, DstColor, OneMinusDstColor, SrcAlpha, OneMinusSrcAlpha, DstAlpha, OneMinusDstAlpha, SrcAlphaSaturate]

  const DST_FACTORS: seq<Factor> :=
    [Zero, One, SrcColor, OneMinusSrcColor, SrcAlpha, OneMinusSrcAlpha, DstAlpha, OneMinusDstAlpha]

  /** The bits of the source factor: a number from one up, in the order of the list. */
  lemma SrcFactorBits(bits: Bits)
    ensures
      var n := (bits & 0xf) as int;
      SrcFactorOf(bits) == if 1 <= n <= 9 then Some(SRC_FACTORS[n - 1]) else None
  {
  }

  lemma DstFactorBits(bits: Bits)
    ensures
      var n := ((bits & 0xf0) >> 4) as int;
      DstFactorOf(bits) == if 1 <= n <= 8 then Some(DST_FACTORS[n - 1]) else None
  {
    var d := bits & 0xf0;
    assert d == 0x00 || d == 0x10 || d == 0x20 || d == 0x30 || d == 0x40 || d == 0x50 || d == 0x60 || d == 0x70
        || d == 0x80 || d == 0x90 || d == 0xa0 || d == 0xb0 || d == 0xc0 || d == 0xd0 || d == 0xe0 || d == 0xf0;
  }

  /** Where the other settings stand among the bits. */
  lemma DepthFuncBits(bits: Bits)
    ensures DepthFuncOf(bits) == if bits & 0x20000 != 0 then Equal else if bits & 0x40000 != 0 then Greater else LessOrEqual
  {
  }

  lemma BlendBits(bits: Bits)
    ensures BlendOf(bits) == bits & 0xff
  {
  }

  lemma SwitchBits()
    ensures GLS_DEPTHMASK_TRUE == 0x100 && GLS_POLYMODE_LINE == 0x1000 && GLS_DEPTHTEST_DISABLE == 0x10000
    ensures forall bits, mask :: Has(bits, mask) <==> bits & mask != 0
  {
  }

  // ---------------------------------------------------------------- facts about the bits

  lemma FactorsOfBlend(a: Bits, b: Bits)
    requires BlendOf(a) == BlendOf(b)
    ensures SrcFactorOf(a) == SrcFactorOf(b) && DstFactorOf(a) == DstFactorOf(b)
  {
    assert a & GLS_SRCBLEND_BITS == BlendOf(a) & GLS_SRCBLEND_BITS;
    assert b & GLS_SRCBLEND_BITS == BlendOf(b) & GLS_SRCBLEND_BITS;
    assert a & GLS_DSTBLEND_BITS == BlendOf(a) & GLS_DSTBLEND_BITS;
    assert b & GLS_DSTBLEND_BITS == BlendOf(b) & GLS_DSTBLEND_BITS;
  }

  /** Replacing the blend bits of the stored state. */
  lemma StoredBlend(stored: Bits, state: Bits)
    ensures BlendOf((stored & !GLS_BLEND_BITS) | BlendOf(state)) == BlendOf(state)
  {
  }

  /** Bits that agree under a mask agree under every part of it. */
  lemma SameUnderMask(a: Bits, b: Bits, mask: Bits)
    ensures (a ^ b) & mask == 0 <==> a & mask == b & mask
  {
    AndOverXor(a, b, mask);
    XorIsZero(a & mask, b & mask);
  }

  lemma AndOverXor(a: Bits, b: Bits, mask: Bits)
    ensures (a ^ b) & mask == (a & mask) ^ (b & mask)
  {
  }

  lemma XorIsZero(x: Bits, y: Bits)
    ensures x ^ y == 0 <==> x == y
  {
  }

  lemma SameDepthFunc(a: Bits, b: Bits)
    requires (a ^ b) & GLS_DEPTHFUNC_BITS == 0
    ensures DepthFuncOf(a) == DepthFuncOf(b)
  {
    assert a & GLS_DEPTHFUNC_EQUAL == b & GLS_DEPTHFUNC_EQUAL;
    assert a & GLS_DEPTHFUNC_GREATER == b & GLS_DEPTHFUNC_GREATER;
  }

  /** While blending, the remembered factors are those asked for. */
  lemma FactorsShown(d: Device, bits: Bits, stored: Bits)
    requires Remembers(d, bits, stored)
    ensures BlendOf(bits) != 0 ==> SrcFactorOf(bits) == Some(d.srcFactor) && DstFactorOf(bits) == Some(d.dstFactor)
    ensures ValidBlend(bits)
  {
    if BlendOf(bits) != 0 {
      FactorsOfBlend(bits, stored);
    }
  }

  /** Stored bits without factors describe no device. */
  lemma Forgotten(d: Device, bits: Bits, stored: Bits, state: Bits)
    requires BlendOf(stored) == BlendOf(state) && !ValidBlend(state)
    ensures !Remembers(d, bits, stored)
  {
    FactorsOfBlend(stored, state);
  }

  // ---------------------------------------------------------------- GL_State

  class StateVector {
    var glStateBits: Bits
    var storedGlState: Bits
    var device: Device

    /** The record tells what the device is set to. */
    ghost predicate Agrees()
      reads this
    {
      Shows(device, glStateBits) && Remembers(device, glStateBits, storedGlState)
    }

    /** The default state; the factors have not been set yet. */
    constructor (src: Factor, dst: Factor)
      ensures Agrees() && BlendOf(glStateBits) == 0
    {
      glStateBits := GLS_DEPTHTEST_DISABLE | GLS_DEPTHMASK_TRUE;
      storedGlState := 0;
      device := Device(LessOrEqual, false, src, dst, true, false, false);
    }

    method SetDepthFunc(stateBits: Bits)
      requires device.depthFunc == DepthFuncOf(glStateBits)
      modifies this`device
      ensures device == old(device).(depthFunc := DepthFuncOf(stateBits))
    {
      if (stateBits ^ glStateBits) & GLS_DEPTHFUNC_BITS != 0 {
        if stateBits & GLS_DEPTHFUNC_EQUAL != 0 {
          device := device.(depthFunc := Equal);
        } else if stateBits & GLS_DEPTHFUNC_GREATER != 0 {
          device := device.(depthFunc := Greater);
        } else {
          device := device.(depthFunc := LessOrEqual);
        }
      } else {
        SameDepthFunc(stateBits, glStateBits);
      }
    }

    method SetDepthMask(stateBits: Bits)
      requires device.depthMask == Has(glStateBits, GLS_DEPTHMASK_TRUE)
      modifies this`device
      ensures device == old(device).(depthMask := Has(stateBits, GLS_DEPTHMASK_TRUE))
    {
      SameUnderMask(stateBits, glStateBits, GLS_DEPTHMASK_TRUE);
      if (stateBits ^ glStateBits) & GLS_DEPTHMASK_TRUE != 0 {
        device := device.(depthMask := stateBits & GLS_DEPTHMASK_TRUE != 0);
      }
    }

    method SetPolygonMode(stateBits: Bits)
      requires device.lines == Has(glStateBits, GLS_POLYMODE_LINE)
      modifies this`device
      ensures device == old(device).(lines := Has(stateBits, GLS_POLYMODE_LINE))
    {
      SameUnderMask(stateBits, glStateBits, GLS_POLYMODE_LINE);
      if (stateBits ^ glStateBits) & GLS_POLYMODE_LINE != 0 {
        device := device.(lines := stateBits & GLS_POLYMODE_LINE != 0);
      }
    }

    method SetDepthTest(stateBits: Bits)
      requires device.depthTest == !Has(glStateBits, GLS_DEPTHTEST_DISABLE)
      modifies this`device
      ensures device == old(device).(depthTest := !Has(stateBits, GLS_DEPTHTEST_DISABLE))
    {
      SameUnderMask(stateBits, glStateBits, GLS_DEPTHTEST_DISABLE);
      if (stateBits ^ glStateBits) & GLS_DEPTHTEST_DISABLE != 0 {
        device := device.(depthTest := stateBits & GLS_DEPTHTEST_DISABLE == 0);
      }
    }

    method StoreBlend(stateBits: Bits)
      modifies this`storedGlState
      ensures BlendOf(storedGlState) == BlendOf(stateBits)
    {
      StoredBlend(storedGlState, stateBits);
      storedGlState := storedGlState & !GLS_BLEND_BITS;
      storedGlState := storedGlState | BlendOf(stateBits);
    }

    /** The settings of one bit each. */
    method SetSwitches(stateBits: Bits)
      requires device.depthMask == Has(glStateBits, GLS_DEPTHMASK_TRUE) && device.lines == Has(glStateBits, GLS_POLYMODE_LINE)
      requires device.depthTest == !Has(glStateBits, GLS_DEPTHTEST_DISABLE)
      modifies this`device
      ensures device == old(device).(depthMask := Has(stateBits, GLS_DEPTHMASK_TRUE), lines := Has(stateBits, GLS_POLYMODE_LINE),
                                     depthTest := !Has(stateBits, GLS_DEPTHTEST_DISABLE))
    {
      SetDepthMask(stateBits);
      SetPolygonMode(stateBits);
      SetDepthTest(stateBits);
    }

    /** Sets the factors that the bits ask for, and stores the bits. Fails when there is no such factor. */
    method SetFactors(stateBits: Bits) returns (ok: bool)
      requires BlendOf(stateBits) != 0
      modifies this`device, this`storedGlState
      ensures ok == HasFactors(stateBits) && BlendOf(storedGlState) == BlendOf(stateBits)
      ensures
        device == if !ok then old(device)
                  else old(device).(srcFactor := SrcFactorOf(stateBits).value, dstFactor := DstFactorOf(stateBits).value)
    {
      StoreBlend(stateBits);
      var srcFactor := SrcFactorOf(stateBits);
      if srcFactor.None? {
        return false;
      }
      var dstFactor := DstFactorOf(stateBits);
      if dstFactor.None? {
        return false;
      }
      device := device.(srcFactor := srcFactor.value, dstFactor := dstFactor.value);
      return true;
    }

    /** Brings blending in line. Fails when a factor is called for that does not exist. */
    method SetBlend(stateBits: Bits) returns (ok: bool)
      requires device.blend == (BlendOf(glStateBits) != 0) && Remembers(device, glStateBits, storedGlState)
      modifies this`device, this`storedGlState
      ensures ok == ValidBlend(stateBits)
      ensures device.blend == (BlendOf(stateBits) != 0)
      ensures ok ==> Remembers(device, stateBits, storedGlState)
      ensures !ok ==> BlendOf(storedGlState) == BlendOf(stateBits)
      ensures device == old(device).(blend := device.blend, srcFactor := device.srcFactor, dstFactor := device.dstFactor)
    {
      var oldState, newState, storedState := BlendOf(glStateBits), BlendOf(stateBits), BlendOf(storedGlState);
      SameUnderMask(stateBits, glStateBits, GLS_BLEND_BITS);
      if storedState == newState {
        FactorsOfBlend(storedGlState, stateBits);
      }
      if (stateBits ^ glStateBits) & GLS_BLEND_BITS == 0 {
        return true;
      }
      if oldState == 0 {
        device := device.(blend := true);
      } else if newState == 0 {
        device := device.(blend := false);
      }
      if newState == 0 || storedState == newState {
        return true;
      }
      ok := SetFactors(stateBits);
      FactorsOfBlend(storedGlState, stateBits);
    }

    /**
     GL_State: afterwards the device shows what the bits ask for, unless they ask for a blend factor
     that does not exist; then the call fails, and the record no longer tells what the device does.
     */
    method GL_State(stateBits: Bits) returns (ok: bool)
      requires Agrees()
      modifies this
      ensures ok == ValidBlend(stateBits)
      ensures Agrees() <==> ValidBlend(stateBits)
      ensures ok ==> glStateBits == stateBits
      ensures !ok ==> glStateBits == old(glStateBits) && device.blend
    {
      if stateBits ^ glStateBits == 0 {
        XorIsZero(stateBits, glStateBits);
        return true;
      }
      SetDepthFunc(stateBits);
      ok := SetBlend(stateBits);
      if !ok {
        Forgotten(device, glStateBits, storedGlState, stateBits);
        return;
      }
      SetSwitches(stateBits);
      glStateBits := stateBits;
      FactorsShown(device, stateBits, storedGlState);
    }
  }

  /** A source factor without a destination factor is enough: from the default state, the record is lost. */
  method HalfABlend(src: Factor, dst: Factor) returns (v: StateVector, ok: bool)
    ensures !ok && !v.Agrees() && fresh(v)
    ensures v.device.blend && BlendOf(v.glStateBits) == 0
  {
    v := new StateVector(src, dst);
    var stateBits: Bits := 0x102;
    assert BlendOf(stateBits) == 2 && DstFactorOf(stateBits) == None;
    ok := v.GL_State(stateBits);
  }

  // ---------------------------------------------------------------- GL_Cull

  /** Face culling: the record, and the device's two settings. */
  class FaceCulling {
    var faceCulling: CullType
    var faceCullFront: bool
    var enabled: bool
    var front: bool

    /** The device culls nothing, or just the faces asked for. */
    ghost predicate Agrees()
      reads this
    {
      && enabled == (faceCulling != TwoSided)
      && front == faceCullFront
      && (faceCulling != TwoSided ==> front == (faceCulling == FrontSided))
    }

    constructor ()
      ensures Agrees() && faceCulling == TwoSided
    {
      faceCulling, faceCullFront := TwoSided, true;
      enabled, front := false, true;
    }

    method GL_Cull(cullType: CullType)
      requires Agrees()
      modifies this
      ensures Agrees() && faceCulling == cullType
    {
      if faceCulling == cullType {
        return;
      }
      if cullType == TwoSided {
        enabled := false;
      } else {
        var cullFront := cullType == FrontSided;
        if faceCulling == TwoSided {
          enabled := true;
        }
        if faceCullFront != cullFront {
          front := cullFront;
        }
        faceCullFront := cullFront;
      }
      faceCulling := cullType;
    }
  }
}
