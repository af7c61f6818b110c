/**
 Caches of what is bound on the GL device: textures and the active unit, the program, framebuffers
 and renderbuffer, used where the device itself cannot edit objects by name. The device below binds
 whatever it is told to; the caches must not make a difference to it.
 */
module GlBindings {

  type Name = nat

  datatype Target = Texture2D | CubeMap | CubeFace(face: nat)

  /** Faces of a cube are bound as part of their cube. */
  function Bound(target: Target): Target {
    if target.CubeFace? then CubeMap else target
  }

  datatype FramebufferTarget = Framebuffer | DrawFramebuffer | ReadFramebuffer

  /** The device: what is bound where, and which objects have been edited or blitted so far. */
  class Device {
    var textures: map<(nat, Target), Name>
    var activeUnit: nat
    var program: Name
    var draw: Name
    var read: Name
    var renderbuffer: Name
    /** The textures edited, in order. */
    var edited: seq<Name>
    /** The programs whose uniforms were set, in order. */
    var uniforms: seq<Name>
    /** From which framebuffer into which pixels were copied, in order. */
    var blits: seq<(Name, Name)>

    constructor ()
      ensures textures == map[] && activeUnit == 0 && program == draw == read == renderbuffer == 0
      ensures edited == [] && uniforms == [] && blits == []
    {
      textures, activeUnit := map[], 0;
      program, draw, read, renderbuffer := 0, 0, 0, 0;
      edited, uniforms, blits := [], [], [];
    }

    /** Nothing bound is the same as name 0. */
    function TextureOn(unit: nat, target: Target): Name
      reads this`textures
    {
      if (unit, target) in textures then textures[(unit, target)] else 0
    }

    method BindTexture(target: Target, texture: Name)
      modifies this`textures
      ensures textures == old(textures)[(activeUnit, target) := texture]
    {
      textures := textures[(activeUnit, target) := texture];
    }

    method BindFramebuffer(target: FramebufferTarget, framebuffer: Name)
      modifies this`draw, this`read
      ensures draw == if target == ReadFramebuffer then old(draw) else framebuffer
      ensures read == if target == DrawFramebuffer then old(read) else framebuffer
    {
      if target != ReadFramebuffer {
        draw := framebuffer;
      }
      if target != DrawFramebuffer {
        read := framebuffer;
      }
    }

    /** Edits whatever texture is bound to the target on the active unit. */
    method EditTexture(target: Target)
      modifies this`edited
      ensures edited == old(edited) + [TextureOn(activeUnit, Bound(target))]
    {
      edited := edited + [TextureOn(activeUnit, Bound(target))];
    }

    method SetUniform()
      modifies this`uniforms
      ensures uniforms == old(uniforms) + [program]
    {
      uniforms := uniforms + [program];
    }

    method Blit()
      modifies this`blits
      ensures blits == old(blits) + [(read, draw)]
    {
      blits := blits + [(read, draw)];
    }

    /** Draws the image of a framebuffer into the one bound for drawing. */
    method DrawImageOf(framebuffer: Name)
      modifies this`blits
      ensures blits == old(blits) + [(framebuffer, draw)]
    {
      blits := blits + [(framebuffer, draw)];
    }
  }

  const NUM_TEXTURE_BUNDLES: nat := 15

  // ---------------------------------------------------------------- textures

  class TextureCache {
    const device: Device
    /** The target each texture belongs to. GL ties a texture to the target it is first bound to. */
    const home: Name -> Target
    var textures: seq<Name>
    var texunit: nat

    /** The cache knows the active unit. */
    ghost predicate Sound()
      reads this, device
    {
      |textures| == NUM_TEXTURE_BUNDLES && texunit < NUM_TEXTURE_BUNDLES && device.activeUnit == texunit
    }

    /** Each cached texture is bound to its own target. */
    ghost predicate Valid()
      reads this, device
    {
      Sound() && forall u: nat :: u < NUM_TEXTURE_BUNDLES ==> device.TextureOn(u, Bound(home(textures[u]))) == textures[u]
    }

    /** GL_BindNullTextures, without direct state access. */
    constructor (device: Device, home: Name -> Target)
      requires home(0) == Texture2D
      modifies device`textures, device`activeUnit
      ensures Valid() && this.device == device && this.home == home
      ensures forall u: nat :: u < NUM_TEXTURE_BUNDLES ==> textures[u] == 0
    {
      this.device, this.home := device, home;
      textures := seq(NUM_TEXTURE_BUNDLES, _ => 0);
      texunit := 0;
      new;
      for i := 0 to NUM_TEXTURE_BUNDLES
        invariant texunit == 0 && |textures| == NUM_TEXTURE_BUNDLES
        invariant forall u: nat :: u < NUM_TEXTURE_BUNDLES ==> textures[u] == 0
        invariant forall u: nat :: u < i ==> (u, Texture2D) in device.textures && device.textures[(u, Texture2D)] == 0
      {
        device.activeUnit := i;
        device.BindTexture(Texture2D, 0);
      }
      device.activeUnit := 0;
      assert Bound(home(0)) == Texture2D;
    }

    /** GLDSA_BindMultiTextureEXT: moves to the unit, and binds there. */
    method BindOnUnit(unit: nat, target: Target, texture: Name)
      requires device.activeUnit == texunit
      modifies this`texunit, device`activeUnit, device`textures
      ensures device.activeUnit == texunit == unit
      ensures device.textures == old(device.textures)[(unit, target) := texture]
    {
      if texunit != unit {
        device.activeUnit := unit;
        texunit := unit;
      }
      device.BindTexture(target, texture);
    }

    /**
     GL_BindMultiTexture. When the texture belongs to the target, the device's bindings end up as if it
     had been bound without looking at the cache. In general they do so exactly if the cache holds
     another texture for the unit, or the binding was there before.
     */
    method GL_BindMultiTexture(unit: nat, target: Target, texture: Name) returns (rebound: bool)
      requires Sound() && unit < NUM_TEXTURE_BUNDLES
      modifies this, device`activeUnit, device`textures
      ensures Sound() && textures == old(textures)[unit := texture]
      ensures old(Valid()) && Bound(target) == Bound(home(texture)) ==>
                Valid() && device.TextureOn(unit, Bound(target)) == texture
      ensures device.TextureOn(unit, Bound(target)) == texture
         <==> old(textures[unit]) != texture || old(device.TextureOn(unit, Bound(target))) == texture
      ensures device.textures == if rebound then old(device.textures)[(unit, Bound(target)) := texture] else old(device.textures)
      ensures rebound == (old(textures[unit]) != texture) && texunit == if rebound then unit else old(texunit)
      ensures rebound ==> device.TextureOn(unit, if target == Texture2D then Texture2D else CubeMap) == texture
    {
      if textures[unit] == texture {
        return false;
      }
      BindOnUnit(unit, Bound(target), texture);
      textures := textures[unit := texture];
      return true;
    }

    /** The wrappers that edit a texture by name do edit that texture. */
    method GLDSA_TextureEdit(texture: Name, target: Target)
      requires Valid() && Bound(target) == Bound(home(texture))
      modifies this, device`activeUnit, device`textures, device`edited
      ensures Valid() && device.edited == old(device.edited) + [texture]
      ensures texunit == old(texunit) && textures == old(textures)[texunit := texture]
    {
      var _ := GL_BindMultiTexture(texunit, target, texture);
      device.EditTexture(target);
    }
  }

  /**
   Without the condition on targets the cache misleads: it knows one texture for each unit, whatever the
   target. Unbinding the cube map of a unit makes a later unbinding of its 2D texture look redundant.
   */
  method UnbindTwice(texture: Name, home: Name -> Target) returns (cache: TextureCache)
    requires texture != 0 && home(texture) == Texture2D && home(0) == Texture2D
    ensures fresh(cache) && fresh(cache.device)
    ensures cache.Sound() && cache.textures[0] == 0 && cache.device.TextureOn(0, Texture2D) == texture
  {
    var device := new Device();
    cache := new TextureCache(device, home);
    var _ := cache.GL_BindMultiTexture(0, Texture2D, texture);
    var _ := cache.GL_BindMultiTexture(0, CubeMap, 0);
    var rebound := cache.GL_BindMultiTexture(0, Texture2D, 0);
    assert !rebound;
  }

  // ---------------------------------------------------------------- program and framebuffers

  /** A framebuffer object of the renderer. */
  class FBO {
    const frameBuffer: Name
    /** Whether it has a first colour image, from which it can be drawn. */
    const hasColorImage: bool

    constructor (frameBuffer: Name, hasColorImage: bool)
      ensures this.frameBuffer == frameBuffer && this.hasColorImage == hasColorImage
    {
      this.frameBuffer, this.hasColorImage := frameBuffer, hasColorImage;
    }
  }

  class BindingCache {
    const device: Device
    const framebufferObject: bool
    const framebufferBlit: bool
    var program: Name
    var drawFramebuffer: Name
    var readFramebuffer: Name
    var renderbuffer: Name
    var currentFBO: FBO?

    /** The caches equal what is really bound. */
    ghost predicate Valid()
      reads this, device
    {
      && program == device.program && renderbuffer == device.renderbuffer
      && drawFramebuffer == device.draw && readFramebuffer == device.read
    }

    function NameOf(fbo: FBO?): Name {
      if fbo == null then 0 else fbo.frameBuffer
    }

    /** The current FBO is the one bound for drawing and for reading. */
    ghost predicate InStep()
      reads this, device
    {
      Valid() && device.draw == device.read == NameOf(currentFBO)
    }

    constructor (device: Device, framebufferObject: bool, framebufferBlit: bool)
      modifies device
      ensures InStep() && this.device == device && currentFBO == null
      ensures this.framebufferObject == framebufferObject && this.framebufferBlit == framebufferBlit
    {
      this.device, this.framebufferObject, this.framebufferBlit := device, framebufferObject, framebufferBlit;
      program, drawFramebuffer, readFramebuffer, renderbuffer, currentFBO := 0, 0, 0, 0, null;
      new;
      device.program, device.renderbuffer := 0, 0;
      device.BindFramebuffer(Framebuffer, 0);
    }

    method GL_UseProgram(program: Name) returns (changed: bool)
      requires Valid()
      modifies this`program, device`program
      ensures Valid() && device.program == program && changed == (program != old(device.program))
    {
      if this.program == program {
        return false;
      }
      device.program := program;
      this.program := program;
      return true;
    }

    /** The wrappers that set a uniform by program set it in that program. */
    method GLDSA_ProgramUniform(program: Name)
      requires Valid()
      modifies this`program, device`program, device`uniforms
      ensures Valid() && device.uniforms == old(device.uniforms) + [program]
    {
      var _ := GL_UseProgram(program);
      device.SetUniform();
    }

    /** GL_BindFramebuffer: the bindings end up as if the cache had not been looked at. */
    method GL_BindFramebuffer(target: FramebufferTarget, framebuffer: Name)
      requires Valid()
      modifies this`drawFramebuffer, this`readFramebuffer, device`draw, device`read
      ensures Valid()
      ensures device.draw == if target == ReadFramebuffer then old(device.draw) else framebuffer
      ensures device.read == if target == DrawFramebuffer then old(device.read) else framebuffer
    {
      match target {
        case Framebuffer =>
          if framebuffer != drawFramebuffer || framebuffer != readFramebuffer {
            device.BindFramebuffer(target, framebuffer);
            drawFramebuffer, readFramebuffer := framebuffer, framebuffer;
          }
        case DrawFramebuffer =>
          if framebuffer != drawFramebuffer {
            device.BindFramebuffer(target, framebuffer);
            drawFramebuffer := framebuffer;
          }
        case ReadFramebuffer =>
          if framebuffer != readFramebuffer {
            device.BindFramebuffer(target, framebuffer);
            readFramebuffer := framebuffer;
          }
      }
    }

    method GL_BindRenderbuffer(renderbuffer: Name)
      requires Valid()
      modifies this`renderbuffer, device`renderbuffer
      ensures Valid() && device.renderbuffer == renderbuffer
    {
      if renderbuffer != this.renderbuffer {
        device.renderbuffer := renderbuffer;
        this.renderbuffer := renderbuffer;
      }
    }

    /**
     FBO_Bind: the FBO becomes the current one. It is then really bound, for drawing and reading, exactly
     if it was not the current one before or the state was in step.
     */
    method FBO_Bind(fbo: FBO?)
      requires Valid()
      modifies this`drawFramebuffer, this`readFramebuffer, this`currentFBO, device`draw, device`read
      ensures Valid() && (old(InStep()) ==> InStep())
      ensures framebufferObject ==> currentFBO == fbo && (InStep() <==> old(currentFBO) != fbo || old(InStep()))
      ensures framebufferObject && old(currentFBO) != fbo ==> device.draw == device.read == if fbo == null then 0 else fbo.frameBuffer
      ensures !framebufferObject || old(currentFBO) == fbo ==>
                currentFBO == old(currentFBO) && device.draw == old(device.draw) && device.read == old(device.read)
    {
      if !framebufferObject {
        return;
      }
      if currentFBO == fbo {
        return;
      }
      GL_BindFramebuffer(Framebuffer, NameOf(fbo));
      currentFBO := fbo;
    }

    /**
     FBO_FastBlit copies from src into dst, and leaves the default framebuffer bound and current. Where the
     driver cannot copy it draws instead, if src has an image to draw, and leaves everything as it was.
     */
    method FBO_FastBlit(src: FBO?, dst: FBO?)
      requires Valid()
      modifies this`drawFramebuffer, this`readFramebuffer, this`currentFBO, device`draw, device`read, device`blits
      ensures Valid() && (framebufferBlit || old(InStep()) ==> InStep())
      ensures framebufferBlit ==> currentFBO == null && device.draw == device.read == 0
      ensures framebufferBlit ==>
                device.blits == old(device.blits) + [(if src == null then 0 else src.frameBuffer, if dst == null then 0 else dst.frameBuffer)]
      ensures !framebufferBlit ==> currentFBO == old(currentFBO)
      ensures !framebufferBlit && framebufferObject && old(InStep()) ==>
                device.blits == old(device.blits) + if src != null && src.hasColorImage then [(src.frameBuffer, NameOf(dst))] else []
    {
      if !framebufferBlit {
        FBO_Blit(src, dst);
        return;
      }
      var srcFb, dstFb := NameOf(src), NameOf(dst);
      GL_BindFramebuffer(ReadFramebuffer, srcFb);
      GL_BindFramebuffer(DrawFramebuffer, dstFb);
      device.Blit();
      GL_BindFramebuffer(Framebuffer, 0);
      currentFBO := null;
    }

    /** FBO_Blit and FBO_BlitFromTexture, as far as bindings go. */
    method FBO_Blit(src: FBO?, dst: FBO?)
      requires Valid()
      modifies this`drawFramebuffer, this`readFramebuffer, this`currentFBO, device`draw, device`read, device`blits
      ensures Valid() && (old(InStep()) ==> InStep()) && currentFBO == old(currentFBO)
      ensures framebufferObject && old(InStep()) ==>
                device.blits == old(device.blits) + if src != null && src.hasColorImage then [(src.frameBuffer, NameOf(dst))] else []
    {
      if src == null || !src.hasColorImage {
        return;
      }
      var oldFbo := currentFBO;
      FBO_Bind(dst);
      device.DrawImageOf(src.frameBuffer);
      FBO_Bind(oldFbo);
    }

    /**
     The wrappers that edit a framebuffer by name bind it, and do not tell currentFBO: the state stays
     in step exactly if they name the framebuffer that is current.
     */
    method GLDSA_NamedFramebufferEdit(framebuffer: Name)
      requires InStep()
      modifies this`drawFramebuffer, this`readFramebuffer, device`draw, device`read
      ensures Valid() && device.draw == device.read == framebuffer
      ensures InStep() <==> framebuffer == NameOf(currentFBO)
    {
      GL_BindFramebuffer(Framebuffer, framebuffer);
    }
  }

  /** What that leads to: binding the current FBO again does nothing, and another one stays bound. */
  method EditThenBind(fbo: FBO, other: Name) returns (cache: BindingCache)
    requires other != fbo.frameBuffer
    ensures fresh(cache) && fresh(cache.device) && cache.currentFBO == fbo && cache.device.draw == other
  {
    var device := new Device();
    cache := new BindingCache(device, true, true);
    cache.FBO_Bind(fbo);
    cache.GLDSA_NamedFramebufferEdit(other);
    cache.FBO_Bind(fbo);
  }
}
