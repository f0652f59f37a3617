/** Values a command or a lookup may not have. */
module Optional {

  /**
   * A slash-command option the caller left unset, a document the store
   * does not hold, a quote the market service did not return.
   */
  datatype Option<T> = None | Some(value: T) {

    /** JavaScript's `option ?? fallback`: the value given, else the fallback. */
    function OrDefault(fallback: T): (r: T)
      ensures Some? ==> r == value
      ensures None? ==> r == fallback
    {
      if Some? then value else fallback
    }
  }
}
