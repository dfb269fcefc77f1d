/** Image layouts: the library's names, the driver's, and the two conversions between them. */
module Layouts {

  /** The layouts of `library/Image.h`. */
  datatype ImageLayout =
    | Undefined | General | ColorAttachment | ShaderRead | TransferSrc
    | TransferDst | PresentSrc | DepthRead | DepthStencil

  /** The Vulkan layouts an image can be in. */
  datatype VkLayout =
    | VkUndefined | VkGeneral | VkColorAttachment | VkShaderRead | VkTransferSrc
    | VkTransferDst | VkPresentSrc | VkDepthRead | VkDepthStencil

  function ToVulkan(layout: ImageLayout): VkLayout {
    match layout
    case Undefined => VkUndefined
    case General => VkGeneral
    case ColorAttachment => VkColorAttachment
    case ShaderRead => VkShaderRead
    case TransferSrc => VkTransferSrc
    case TransferDst => VkTransferDst
    case PresentSrc => VkPresentSrc
    case DepthRead => VkDepthRead
    case DepthStencil => VkDepthStencil
  }

  /** The way back has no case for depth-stencil attachments. */
  function FromVulkan(layout: VkLayout): ImageLayout {
    match layout
    case VkGeneral => General
    case VkColorAttachment => ColorAttachment
    case VkShaderRead => ShaderRead
    case VkTransferSrc => TransferSrc
    case VkTransferDst => TransferDst
    case VkPresentSrc => PresentSrc
    case VkDepthRead => DepthRead
    case _ => Undefined
  }

  /** A Vulkan layout after it went through the library's enumeration. */
  function Seen(layout: VkLayout): VkLayout {
    ToVulkan(FromVulkan(layout))
  }

  /** The layout an image is remembered in after a transition. */
  function AfterTransition(stored: VkLayout, layout: ImageLayout): VkLayout {
    if layout.Undefined? then stored else Seen(ToVulkan(layout))
  }

  /** The layout an image is remembered in after it was filled between two transitions. */
  function AfterFill(stored: VkLayout): VkLayout {
    AfterTransition(AfterTransition(stored, TransferDst), FromVulkan(stored))
  }

  /** The two conversions undo each other on all layouts but one. */
  lemma {:induction false} ConversionsInverse(layout: ImageLayout, stored: VkLayout)
    ensures FromVulkan(ToVulkan(layout)) == layout <==> !layout.DepthStencil?
    ensures Seen(stored) == stored <==> !stored.VkDepthStencil?
  {
  }

  /** Which Vulkan layout each layout of the library stands for. */
  lemma {:induction false} LayoutNames()
    ensures ToVulkan(Undefined) == VkUndefined && ToVulkan(General) == VkGeneral
    ensures ToVulkan(ColorAttachment) == VkColorAttachment && ToVulkan(ShaderRead) == VkShaderRead
    ensures ToVulkan(TransferSrc) == VkTransferSrc && ToVulkan(TransferDst) == VkTransferDst
    ensures ToVulkan(PresentSrc) == VkPresentSrc && ToVulkan(DepthRead) == VkDepthRead
    ensures ToVulkan(DepthStencil) == VkDepthStencil && FromVulkan(VkDepthStencil) == Undefined
  {
  }

  /** A transition that records a barrier is remembered if and only if its target is not
      depth-stencil; a transition to undefined records none. */
  lemma {:induction false} TransitionRemembered(stored: VkLayout, layout: ImageLayout)
    ensures !layout.Undefined? ==>
      (AfterTransition(stored, layout) == ToVulkan(layout) <==> !layout.DepthStencil?)
    ensures layout.Undefined? ==>
      (AfterTransition(stored, layout) == ToVulkan(layout) <==> stored.VkUndefined?)
  {
  }

  /** A filled image gets its layout back if and only if it was neither undefined nor
      depth-stencil. */
  lemma {:induction false} FillRestores(stored: VkLayout)
    ensures AfterFill(stored) == AfterTransition(VkTransferDst, FromVulkan(stored))
    ensures AfterFill(stored) == stored <==> !stored.VkUndefined? && !stored.VkDepthStencil?
    ensures AfterFill(stored) == stored || AfterFill(stored) == VkTransferDst
  {
  }

  /** An image moved to depth-stencil is remembered as undefined. */
  lemma {:induction false} DepthStencilForgotten(stored: VkLayout)
    ensures AfterTransition(stored, DepthStencil) == VkUndefined
  {
  }

  /** A filled depth-stencil image, like an undefined one, is left as a transfer target. */
  lemma {:induction false} FillLosesLayout()
    ensures AfterFill(VkDepthStencil) == VkTransferDst && AfterFill(VkUndefined) == VkTransferDst
    ensures Seen(VkDepthStencil) == VkUndefined
  {
  }
}
