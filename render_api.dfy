/** The renderer's group type, as the store sees it: references are objects
    compared by identity, and any of them may be null. */
module RenderApi {

  /** One view reference and its fragment references, in structural order. */
  datatype RenderViewWithFragments = RenderViewWithFragments(viewRef: object?, fragmentRefs: seq<object?>)
  {
    /** The view reference followed by the fragment references. */
    function Refs(): seq<object?>
    {
      [viewRef] + fragmentRefs
    }
  }
}
