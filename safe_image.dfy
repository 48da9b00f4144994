/** `SafeImg`: an image that, on a load error, switches once to its
    placeholder and stays there.  `useState(src)` reads `src` only when the
    component mounts: a later render with other props changes the
    placeholder the error handler compares against, never the image shown. */
module SafeImage {
  class SafeImg {
    /** The `placeholder` prop of the latest render */
    var placeholder: string
    /** `imgSrc` */
    var src: string
    /** What was shown when the props were last passed */
    ghost var shown: string
    /** How many times `setImgSrc` has run since the props were last passed */
    ghost var swaps: nat

    /** The image shows what it showed at the latest render until it has
        swapped, once, to the current placeholder */
    ghost predicate Valid()
      reads this
    {
      && (src == shown || src == placeholder)
      && swaps == (if src == shown then 0 else 1)
    }

    constructor (source: string, fallback: string)
      ensures src == source && placeholder == fallback && shown == source && swaps == 0
      ensures Valid()
    {
      placeholder := fallback;
      src := source;
      shown := source;
      swaps := 0;
    }

    /** `onError`: the placeholder is shown afterwards; the swap happens only
        when something else was shown, so an error on the placeholder
        changes nothing */
    method OnError()
      requires Valid()
      modifies this
      ensures Valid()
      ensures src == placeholder && placeholder == old(placeholder) && shown == old(shown)
      ensures old(src) == placeholder ==> swaps == old(swaps)
      ensures old(src) != placeholder ==> swaps == old(swaps) + 1
      ensures swaps <= 1
    {
      if src != placeholder {
        src := placeholder;
        swaps := swaps + 1;
      }
    }

    /** A render of the mounted component with new props, as when the route
        moves from one product page to another: the placeholder follows the
        props, the new `source` is ignored and the image keeps showing what
        it showed */
    method Rerender(source: string, fallback: string)
      modifies this
      ensures src == old(src) && placeholder == fallback
      ensures shown == old(src) && swaps == 0
      ensures Valid()
    {
      placeholder := fallback;
      shown := src;
      swaps := 0;
    }
  }
}
