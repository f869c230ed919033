/**
 * The values the API layer passes around: what the URL resolver found for a console URL, the
 * request bodies of the content endpoints and the outcome of a controller action.
 */
module Api {
  import opened Wrappers

  /** A CMS list definition; its class name names the component implementing it (null when unset). */
  datatype ListRef = ListRef(id: int, className: Option<string>)

  /** A component list instance (the runtime object that renders a list). */
  datatype ListInstanceRef = ListInstanceRef(listID: int)

  datatype PageRef = PageRef(id: int)

  /**
   * What UrlResolver.ResolveUrlAsync leaves in the resolver's properties: the list, list instance
   * and page the URL points at (each possibly null) and the item ID taken from the URL.
   */
  datatype Resolution = Resolution(list: Option<ListRef>, listInstance: Option<ListInstanceRef>,
                                   page: Option<PageRef>, itemID: Option<int>)

  /** The arguments the filter passes to ResolveUrlAsync. */
  datatype ResolveArgs = ResolveArgs(scheme: string, host: string, pathBase: string, path: string, query: string)

  datatype GetContentRequest = GetContentRequest(currentSiteID: int)

  datatype PostContentRequest = PostContentRequest(currentSiteID: int, postedField: Option<string>)

  datatype StatusCode = OK

  /** What a controller action returns: BadRequest(), Ok(value) (an OkObjectResult), or an exception that escapes it. */
  datatype ActionResult<T> = BadRequest | OkObject(value: T) | Faulted
}
