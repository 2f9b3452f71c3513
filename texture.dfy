/**
 * loadTexture's choice of the device's internal format and transfer format
 * for the channel layout requested from the image decoder.
 */
module Texture {

  /** The decoder's channel requests (stb_image's STBI_* constants). */
  const STBI_DEFAULT := 0
  const STBI_GREY := 1
  const STBI_GREY_ALPHA := 2
  const STBI_RGB := 3
  const STBI_RGB_ALPHA := 4

  /** Sized internal formats of the texture storage. */
  datatype InternalFormat = RGBA8 | RGB8 | R8 | RG8

  /** Layouts of the pixel data handed to the upload. */
  datatype PixelFormat = RGBA | RGB | RED | RG

  /**
   * The formats chosen, and whether the request was unrecognised (the
   * case in which "Invalid format" is written to the error stream).
   */
  datatype FormatChoice = FormatChoice(internal: InternalFormat, transfer: PixelFormat, invalid: bool)

  /** Channels stored per texel by an internal format. */
  function InternalChannels(f: InternalFormat): nat
  {
    match f
    case R8 => 1
    case RG8 => 2
    case RGB8 => 3
    case RGBA8 => 4
  }

  /** Channels per pixel of a transfer format. */
  function PixelChannels(f: PixelFormat): nat
  {
    match f
    case RED => 1
    case RG => 2
    case RGB => 3
    case RGBA => 4
  }

  predicate Recognised(comp: int)
  {
    comp == STBI_GREY || comp == STBI_GREY_ALPHA || comp == STBI_RGB || comp == STBI_RGB_ALPHA
  }

  /**
   * The switch over the requested layout: each recognised request gets the
   * formats with that many channels; anything else is reported and falls
   * back to the four-channel formats.
   */
  function FormatFor(comp: int): (r: FormatChoice)
    ensures r.invalid <==> !Recognised(comp)
    ensures Recognised(comp) ==> InternalChannels(r.internal) == comp && PixelChannels(r.transfer) == comp
    ensures !Recognised(comp) ==> r.internal == RGBA8 && r.transfer == RGBA
  {
    if comp == STBI_RGB_ALPHA then FormatChoice(RGBA8, RGBA, false)
    else if comp == STBI_RGB then FormatChoice(RGB8, RGB, false)
    else if comp == STBI_GREY then FormatChoice(R8, RED, false)
    else if comp == STBI_GREY_ALPHA then FormatChoice(RG8, RG, false)
    else FormatChoice(RGBA8, RGBA, true)
  }

  /** Whatever is requested, the storage and the upload agree on the channel count. */
  lemma FormatsAgree(comp: int)
    ensures InternalChannels(FormatFor(comp).internal) == PixelChannels(FormatFor(comp).transfer)
  {
  }

  /** An unrecognised request gives the same formats as a four-channel request. */
  lemma FallbackIsRgbAlpha(comp: int)
    ensures !Recognised(comp) ==>
      FormatFor(comp).internal == FormatFor(STBI_RGB_ALPHA).internal &&
      FormatFor(comp).transfer == FormatFor(STBI_RGB_ALPHA).transfer
  {
  }

  /**
   * Asking the decoder for the file's own layout is not one of the
   * recognised requests: it is reported and uploaded as four channels.
   */
  lemma DefaultRequestReported()
    ensures FormatFor(STBI_DEFAULT) == FormatChoice(RGBA8, RGBA, true)
  {
  }

  /** Distinct recognised requests get distinct formats. */
  lemma RecognisedInjective(a: int, b: int)
    requires Recognised(a) && Recognised(b) && a != b
    ensures FormatFor(a).internal != FormatFor(b).internal
    ensures FormatFor(a).transfer != FormatFor(b).transfer
  {
    assert InternalChannels(FormatFor(a).internal) != InternalChannels(FormatFor(b).internal);
    assert PixelChannels(FormatFor(a).transfer) != PixelChannels(FormatFor(b).transfer);
  }
}
