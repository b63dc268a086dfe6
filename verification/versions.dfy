/** How the two loader versions differ where they make the same decision. */
module Versions {
  import opened Wrappers
  import opened Dom
  import LoaderV1
  import LoaderV2

  /** For an inline main view both versions wire the same detail handler for
      "modal" and "inline". Every other detail mode, "inlineOnModal"
      included, gets no handler in the first version and the inline one in
      the second. */
  lemma DetailHandlersAcrossVersions(c: LoaderV2.Config)
    requires c.mainMode == "inline"
    ensures c.detailMode == "modal" || c.detailMode == "inline" ==>
      LoaderV2.Dispatch(c).handler == LoaderV1.HandlerFor(c.detailMode)
    ensures c.detailMode != "modal" && c.detailMode != "inline" ==>
      LoaderV1.HandlerFor(c.detailMode) == NoDetails && LoaderV2.Dispatch(c).handler == InlineDetails
  {
  }

  /** A main mode other than "inline" and "modal" is an error in the first
      version and an overlay in the second. */
  lemma UnknownMainModeAcrossVersions(st: LoaderV1.Settings, lookup: string -> Option<Element>, c: LoaderV2.Config)
    requires st.mainMode == c.mainMode && c.mainMode != "inline" && c.mainMode != "modal"
    ensures LoaderV1.Dispatch(st, lookup) == LoaderV1.UnsupportedMainMode
    ensures LoaderV2.Dispatch(c) == LoaderV2.OverlayMain(LoaderV2.ModalOverlay(c.serviceUrl))
  {
  }
}
