/** What the content scripts do with the page's elements of one id. */
module Dom {

  /** `document.getElementById(id)?.remove()` on the elements with that id,
      in document order: the first one, if any, goes. */
  function RemoveFirst<T>(s: seq<T>): seq<T> {
    if s == [] then [] else s[1..]
  }
}
