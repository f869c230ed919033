/**
 * The Content controller: GetContent and PostContent check the request, then answer with the list,
 * the folder explorer or nothing, depending on what the URL resolver found for the console URL.
 */
module Content {
  import opened Wrappers
  import opened Text
  import opened Api

  /** The component class of the Browsing list, whose URLs are answered by the explorer. */
  const BrowsingClass: string := "Sushi.Mediakiwi.AppCentre.Data.Implementation.Browsing"

  /** A rendered list; only its edit-mode flag is looked at here. */
  datatype ListResponse = ListResponse(isEditMode: bool, form: string)

  /** A rendered folder explorer. */
  datatype ExplorerResponse = ExplorerResponse(view: string)

  /** IContentService: what it renders for a resolver is given, not modelled. */
  datatype ContentService = ContentService(listResponse: Resolution -> ListResponse,
                                           explorerResponse: Resolution -> ExplorerResponse)

  datatype GetContentResponse = GetContentResponse(list: Option<ListResponse>, isEditMode: bool,
                                                   statusCode: Option<StatusCode>, explorer: Option<ExplorerResponse>)

  datatype PostContentResponse = PostContentResponse(list: Option<ListResponse>, isEditMode: bool,
                                                     statusCode: Option<StatusCode>)

  /** A freshly constructed response: nothing set. */
  const EmptyGetContent := GetContentResponse(None, false, None, None)
  const EmptyPostContent := PostContentResponse(None, false, None)

  /** The resolver found a list instance whose list is not the Browsing list. */
  predicate IsListView(res: Resolution): (b: bool)
    ensures b ==> res.listInstance.Some? && res.list.Some?
  {
    && res.listInstance.Some? && res.list.Some? && res.list.value.className.Some?
    && !ContainsIgnoreCase(res.list.value.className.value, BrowsingClass)
  }

  /** Reading the list's class name throws: a list instance without a list, or a list without a class name. */
  predicate ClassNameThrows(res: Resolution): (b: bool)
    ensures b ==> res.listInstance.Some? && !IsListView(res)
  {
    res.listInstance.Some? && (res.list.None? || res.list.value.className.None?)
  }

  /**
   * GetContent(request): BadRequest without a site; else the list for a non-Browsing list instance,
   * nothing (and no status) for a page, and the explorer otherwise.
   */
  method GetContent(request: GetContentRequest, resolver: Resolution, service: ContentService)
    returns (r: ActionResult<GetContentResponse>)
    ensures r.BadRequest? <==> request.currentSiteID == 0
    ensures r.Faulted? <==> request.currentSiteID != 0 && ClassNameThrows(resolver)
    ensures r.OkObject? ==> r.value.list.None? || r.value.explorer.None?
    ensures r.OkObject? && r.value.list.Some? <==> request.currentSiteID != 0 && IsListView(resolver)
    ensures r.OkObject? && r.value.list.Some? ==>
              && r.value.list == Some(service.listResponse(resolver))
              && r.value.isEditMode == r.value.list.value.isEditMode && r.value.statusCode == Some(OK)
    ensures r.OkObject? && r.value.explorer.Some? <==>
              request.currentSiteID != 0 && !IsListView(resolver) && !ClassNameThrows(resolver) && resolver.page.None?
    ensures r.OkObject? && r.value.explorer.Some? ==>
              r.value == EmptyGetContent.(explorer := Some(service.explorerResponse(resolver)), statusCode := Some(OK))
    ensures r.OkObject? && r.value.list.None? && r.value.explorer.None? ==> r.value == EmptyGetContent && resolver.page.Some?
  {
    var result := EmptyGetContent;
    if request.currentSiteID == 0 {
      return BadRequest;
    }
    if resolver.listInstance.Some? && (resolver.list.None? || resolver.list.value.className.None?) {
      return Faulted;
    }
    if resolver.listInstance.Some? && !ContainsIgnoreCase(resolver.list.value.className.value, BrowsingClass) {
      var list := service.listResponse(resolver);
      result := result.(list := Some(list));
      result := result.(isEditMode := list.isEditMode);
      result := result.(statusCode := Some(OK));
    } else if resolver.page.Some? {
      // a page: the response stays empty
    } else {
      result := result.(explorer := Some(service.explorerResponse(resolver)));
      result := result.(statusCode := Some(OK));
    }
    return OkObject(result);
  }

  /**
   * PostContent(request): BadRequest without a site or a posted field; else the list when the
   * resolver found a list instance (Browsing or not), and an empty response otherwise.
   */
  method PostContent(request: PostContentRequest, resolver: Resolution, service: ContentService)
    returns (r: ActionResult<PostContentResponse>)
    ensures r.BadRequest? <==> request.currentSiteID == 0 || IsNullOrEmpty(request.postedField)
    ensures !r.Faulted?
    ensures r.OkObject? ==> (r.value.list.Some? <==> resolver.listInstance.Some?)
    ensures r.OkObject? && resolver.listInstance.Some? ==>
              && r.value.list == Some(service.listResponse(resolver))
              && r.value.isEditMode == r.value.list.value.isEditMode && r.value.statusCode == Some(OK)
    ensures r.OkObject? && resolver.listInstance.None? ==> r.value == EmptyPostContent
  {
    var result := EmptyPostContent;
    if request.currentSiteID == 0 || IsNullOrEmpty(request.postedField) {
      return BadRequest;
    }
    if resolver.listInstance.Some? {
      var list := service.listResponse(resolver);
      result := result.(list := Some(list));
      result := result.(isEditMode := list.isEditMode);
      result := result.(statusCode := Some(OK));
    }
    return OkObject(result);
  }

  /**
   * A list whose class name names the Browsing implementation, in any letter case, is never shown as
   * a list by GetContent; PostContent shows it all the same.
   */
  lemma BrowsingListNotShown(res: Resolution, prefix: string, spelling: string, suffix: string)
    requires res.listInstance.Some? && res.list.Some?
    requires |spelling| == |BrowsingClass| && forall j :: 0 <= j < |spelling| ==> SameLetter(spelling[j], BrowsingClass[j])
    requires res.list.value.className == Some(prefix + spelling + suffix)
    ensures !IsListView(res) && !ClassNameThrows(res)
  {
    var name := prefix + spelling + suffix;
    forall j | 0 <= j < |BrowsingClass| ensures SameLetter(name[|prefix| + j], BrowsingClass[j]) {
      assert name[|prefix| + j] == spelling[j];
    }
    assert MatchesAt(name, BrowsingClass, |prefix|);
  }
}
