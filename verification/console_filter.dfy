/**
 * MediakiwiConsoleFilter: before a content action runs, it builds a CMS console for the URL the
 * client is looking at (sent in a request header), lets the URL resolver find the list, list
 * instance, page and item that URL points at, and leaves resolver and console in HttpContext.Items.
 */
module ConsoleFilter {
  import opened Wrappers
  import opened Text
  import opened Api

  /** The request headers the filter reads or writes; any other header is carried along untouched. */
  datatype HeaderName = UrlHeader | ForwardedHostHeader | PostedFieldHeader | OtherHeader(name: string)

  /** The HttpContext.Items keys the filter writes: "Wim.Page", the resolver key and the console key. */
  datatype ItemKey = PageKey | ResolverKey | ConsoleKey | OtherKey(name: string)

  datatype ItemValue = PageItem(page: PageRef) | ResolverItem(resolution: Resolution) | ConsoleItem(console: Console) | OtherItem

  /** One value of ActionArguments: a PostContentRequest body or anything else. */
  datatype Argument = PostContentArgument(request: PostContentRequest) | OtherArgument

  /** HttpMethods.Post, compared ordinally with the request method. */
  const PostMethod: string := "POST"

  // ---------------------------------------------------------------------------------------------
  // Dictionary.Add, one pair after another

  /**
   * Adding the pairs in order to a dictionary whose Add throws on a key already present: the flag
   * says whether every Add succeeded, the map is the dictionary when the first failure (if any) hit.
   */
  function AddAll<K, V>(entries: map<K, V>, pairs: seq<(K, V)>): (r: (bool, map<K, V>))
    ensures forall k :: k in entries ==> k in r.1 && r.1[k] == entries[k]
    decreases |pairs|
  {
    if pairs == [] then (true, entries)
    else if pairs[0].0 in entries then (false, entries)
    else AddAll(entries[pairs[0].0 := pairs[0].1], pairs[1..])
  }

  /** Adding one more pair after a run of Adds. */
  lemma {:induction false} AddAllSnoc<K, V>(entries: map<K, V>, pairs: seq<(K, V)>, p: (K, V))
    ensures var (ok, e) := AddAll(entries, pairs);
            AddAll(entries, pairs + [p]) == if !ok then (ok, e) else if p.0 in e then (false, e) else (true, e[p.0 := p.1])
    decreases |pairs|
  {
    if pairs != [] {
      assert (pairs + [p])[1..] == pairs[1..] + [p];
      if pairs[0].0 !in entries {
        AddAllSnoc(entries[pairs[0].0 := pairs[0].1], pairs[1..], p);
      }
    }
  }

  predicate DistinctKeys<K(==), V>(pairs: seq<(K, V)>) {
    forall i, j :: 0 <= i < j < |pairs| ==> pairs[i].0 != pairs[j].0
  }

  /**
   * With distinct keys, every Add succeeds exactly when no key is present yet; the entries already
   * present are never replaced, and on success each key holds its value and no other key appears.
   */
  lemma {:induction false} AddAllDistinct<K, V>(entries: map<K, V>, pairs: seq<(K, V)>)
    requires DistinctKeys(pairs)
    ensures var (ok, e) := AddAll(entries, pairs);
      && (ok <==> forall i :: 0 <= i < |pairs| ==> pairs[i].0 !in entries)
      && (forall k :: k in entries ==> k in e && e[k] == entries[k])
      && (ok ==> forall i :: 0 <= i < |pairs| ==> pairs[i].0 in e && e[pairs[i].0] == pairs[i].1)
      && (forall k :: k in e ==> k in entries || exists i :: 0 <= i < |pairs| && pairs[i].0 == k)
    decreases |pairs|
  {
    if pairs != [] && pairs[0].0 !in entries {
      var rest := pairs[1..];
      var next := entries[pairs[0].0 := pairs[0].1];
      assert DistinctKeys(rest) by {
        forall i, j | 0 <= i < j < |rest| ensures rest[i].0 != rest[j].0 {
          assert rest[i] == pairs[i + 1] && rest[j] == pairs[j + 1];
        }
      }
      AddAllDistinct(next, rest);
      var (ok, e) := AddAll(next, rest);
      forall i | 0 <= i < |rest| ensures rest[i].0 != pairs[0].0 && rest[i] == pairs[i + 1] {
        assert rest[i] == pairs[i + 1];
      }
      forall k | k in e ensures k in entries || exists i :: 0 <= i < |pairs| && pairs[i].0 == k {
        if k !in next {
          var i :| 0 <= i < |rest| && rest[i].0 == k;
          assert pairs[i + 1].0 == k;
        }
      }
      assert ok <==> forall i :: 0 <= i < |pairs| ==> pairs[i].0 !in entries by {
        if !ok {
          var i :| 0 <= i < |rest| && rest[i].0 in next;
          assert pairs[i + 1].0 in entries;
        }
        if ok {
          forall i | 0 <= i < |pairs| ensures pairs[i].0 !in entries {
            if i > 0 {
              assert pairs[i] == rest[i - 1];
            }
          }
        }
      }
      if ok {
        forall i | 0 <= i < |pairs| ensures pairs[i].0 in e && e[pairs[i].0] == pairs[i].1 {
          if i > 0 {
            assert pairs[i] == rest[i - 1];
          }
        }
      }
    }
  }

  /**
   * Adding values under one key: it fails as soon as the key is present, so the run succeeds only with
   * no value at all, or with a single value when the key was absent.
   */
  lemma {:induction false} AddAllSameKey<K, V>(entries: map<K, V>, pairs: seq<(K, V)>, key: K)
    requires forall i :: 0 <= i < |pairs| ==> pairs[i].0 == key
    ensures AddAll(entries, pairs).0 <==> |pairs| == 0 || (|pairs| == 1 && key !in entries)
    ensures |pairs| == 1 && key !in entries ==> AddAll(entries, pairs).1 == entries[key := pairs[0].1]
  {
    if |pairs| >= 1 && key !in entries {
      assert pairs[1..] == [] || pairs[1].0 in entries[key := pairs[0].1];
    }
  }

  // ---------------------------------------------------------------------------------------------
  // The objects the filter works on

  datatype RequestData = RequestData(httpMethod: string, scheme: string, host: string, pathBase: string,
                                     path: string, queryString: string, headers: map<HeaderName, string>)

  class HttpRequest {
    var httpMethod: string
    var scheme: string
    var host: string
    var pathBase: string
    var path: string
    var queryString: string
    var headers: map<HeaderName, string>

    function Data(): RequestData
      reads this
    {
      RequestData(httpMethod, scheme, host, pathBase, path, queryString, headers)
    }

    constructor (d: RequestData)
      ensures Data() == d
    {
      httpMethod, scheme, host, pathBase := d.httpMethod, d.scheme, d.host, d.pathBase;
      path, queryString, headers := d.path, d.queryString, d.headers;
    }

    /** Headers.Add(name, value): throws when the header is already present. */
    method AddHeader(name: HeaderName, value: string) returns (ok: bool)
      modifies this
      ensures ok <==> name !in old(headers)
      ensures Data() == old(Data()).(headers := if ok then old(headers)[name := value] else old(headers))
    {
      ok := name !in headers;
      if ok {
        headers := headers[name := value];
      }
    }
  }

  /** HttpContext.Items */
  class ItemBag {
    var entries: map<ItemKey, ItemValue>

    constructor (entries: map<ItemKey, ItemValue>)
      ensures this.entries == entries
    {
      this.entries := entries;
    }

    /** Items.Add(key, value): throws when the key is already present. */
    method Add(key: ItemKey, value: ItemValue) returns (ok: bool)
      modifies this
      ensures (ok, entries) == AddAll(old(entries), [(key, value)])
    {
      ok := key !in entries;
      if ok {
        entries := entries[key := value];
      }
    }
  }

  class HttpContext {
    var request: HttpRequest
    var items: ItemBag

    constructor (request: HttpRequest, items: ItemBag)
      ensures this.request == request && this.items == items
    {
      this.request, this.items := request, items;
    }

    /** HttpContext.Clone(): a new context with a copy of this request and of the items (the filter then replaces the copy's items). */
    method Clone() returns (copy: HttpContext)
      ensures fresh(copy) && fresh(copy.request) && fresh(copy.items)
      ensures copy.request.Data() == request.Data() && copy.items.entries == items.entries
    {
      var r := new HttpRequest(request.Data());
      var i := new ItemBag(items.entries);
      copy := new HttpContext(r, i);
    }
  }

  /** The part of the CMS console the filter sets. */
  class Console {
    const context: HttpContext
    var currentList: Option<ListRef>
    var currentListInstance: Option<ListInstanceRef>
    var item: Option<int>

    /** The console for a context; the list and list instance its own construction found are given. */
    constructor (context: HttpContext, list: Option<ListRef>, listInstance: Option<ListInstanceRef>)
      ensures this.context == context && currentList == list && currentListInstance == listInstance && item == None
    {
      this.context := context;
      currentList, currentListInstance, item := list, listInstance, None;
    }
  }

  // ---------------------------------------------------------------------------------------------
  // The posted-field header

  /** The header a POST argument contributes: a PostContentRequest's non-blank PostedField. */
  function PostedPairs(args: seq<Argument>): (r: seq<(HeaderName, string)>)
    ensures forall k :: 0 <= k < |r| ==> r[k].0 == PostedFieldHeader && !AllWhiteSpace(r[k].1)
    ensures |r| <= |args|
  {
    if args == [] then []
    else
      var a := args[|args| - 1];
      PostedPairs(args[..|args| - 1])
        + if a.PostContentArgument? && !IsNullOrWhiteSpace(a.request.postedField)
          then [(PostedFieldHeader, a.request.postedField.value)] else []
  }

  /** One more argument adds its posted field's header exactly when it is a PostContentRequest with a non-blank one. */
  lemma PostedPairsSnoc(args: seq<Argument>, a: Argument)
    ensures PostedPairs(args + [a]) == PostedPairs(args)
              + if a.PostContentArgument? && !IsNullOrWhiteSpace(a.request.postedField)
                then [(PostedFieldHeader, a.request.postedField.value)] else []
  {
    assert (args + [a])[..|args|] == args;
  }

  lemma {:induction false} PostedPairsAppend(a: seq<Argument>, b: seq<Argument>)
    ensures PostedPairs(a + b) == PostedPairs(a) + PostedPairs(b)
    decreases |b|
  {
    if b == [] {
      assert a + b == a;
    } else {
      var b' := b[..|b| - 1];
      assert (a + b)[..|a + b| - 1] == a + b';
      assert (a + b)[|a + b| - 1] == b[|b| - 1];
      PostedPairsAppend(a, b');
    }
  }

  /** The copy's headers after the POST section: the flag is false when a header Add throws. */
  function PostedHeaders(d: RequestData, args: seq<Argument>): (r: (bool, map<HeaderName, string>))
    ensures d.httpMethod != PostMethod ==> r == (true, d.headers)
    ensures forall h :: h in d.headers ==> h in r.1 && r.1[h] == d.headers[h]
  {
    if d.httpMethod == PostMethod then AddAll(d.headers, PostedPairs(args)) else (true, d.headers)
  }

  /**
   * A posted-field header is added only on POST and only for an argument with a non-blank posted
   * field; a second such argument, or a posted-field header the request already carries, throws.
   */
  lemma PostedHeaderRule(d: RequestData, args: seq<Argument>)
    ensures var (ok, h) := PostedHeaders(d, args);
      && (d.httpMethod != PostMethod || |PostedPairs(args)| == 0 ==> ok && h == d.headers)
      && (ok <==> d.httpMethod != PostMethod || |PostedPairs(args)| == 0
                  || (|PostedPairs(args)| == 1 && PostedFieldHeader !in d.headers))
      && (ok && d.httpMethod == PostMethod && |PostedPairs(args)| == 1 ==> h == d.headers[PostedFieldHeader := PostedPairs(args)[0].1])
  {
    AddAllSameKey(d.headers, PostedPairs(args), PostedFieldHeader);
  }

  /** The POST section: each non-blank posted field of a PostContentRequest argument becomes a header. */
  method AddPostedFieldHeaders(request: HttpRequest, isPost: bool, args: seq<Argument>) returns (ok: bool)
    modifies request
    ensures var posted := if isPost then AddAll(old(request.headers), PostedPairs(args)) else (true, old(request.headers));
            ok == posted.0 && (ok ==> request.Data() == old(request.Data()).(headers := posted.1))
  {
    if !isPost {
      return true;
    }
    ghost var h0 := request.headers;
    var i := 0;
    while i < |args|
      invariant 0 <= i <= |args|
      invariant AddAll(h0, PostedPairs(args[..i])) == (true, request.headers)
      invariant request.Data() == old(request.Data()).(headers := request.headers)
    {
      var a := args[i];
      assert args[..i + 1][..i] == args[..i];
      if a.PostContentArgument? && !IsNullOrWhiteSpace(a.request.postedField) {
        var p := (PostedFieldHeader, a.request.postedField.value);
        AddAllSnoc(h0, PostedPairs(args[..i]), p);
        assert PostedPairs(args[..i + 1]) == PostedPairs(args[..i]) + [p];
        ok := request.AddHeader(PostedFieldHeader, a.request.postedField.value);
        if !ok {
          assert !AddAll(h0, PostedPairs(args[..i + 1])).0;
          PostedPairsAppend(args[..i + 1], args[i + 1..]);
          assert args[..i + 1] + args[i + 1..] == args;
          AddAllSameKey(h0, PostedPairs(args[..i + 1]), PostedFieldHeader);
          AddAllSameKey(h0, PostedPairs(args), PostedFieldHeader);
          return false;
        }
      } else {
        assert PostedPairs(args[..i + 1]) == PostedPairs(args[..i]);
      }
      i := i + 1;
    }
    assert args[..i] == args;
    return true;
  }

  // ---------------------------------------------------------------------------------------------
  // The URL header

  /** The path part of the URL header: the first piece of its split on '?'. */
  function PathOf(url: string): (p: string)
    ensures '?' !in p
    ensures '?' !in url ==> p == url
  {
    if '?' in url then SplitPieces(url, '?'); Split(url, '?')[0] else url
  }

  /** The query part of the URL header: the second piece of its split on '?', or empty. */
  function QueryOf(url: string): (q: string)
    ensures '?' !in q
    ensures '?' !in url ==> q == ""
  {
    if '?' in url then SplitPieces(url, '?'); Split(url, '?')[1] else ""
  }

  /**
   * The path is the text before the first '?' and the query the text up to the next '?' (anything
   * after a second '?' is dropped); without a '?' the whole text is the path and the query is empty.
   */
  lemma UrlParts(url: string)
    ensures '?' !in PathOf(url) && '?' !in QueryOf(url)
    ensures '?' !in url ==> PathOf(url) == url && QueryOf(url) == ""
    ensures '?' in url ==> var n := |PathOf(url)| + 1 + |QueryOf(url)|;
              n <= |url| && url[..n] == PathOf(url) + "?" + QueryOf(url) && (n < |url| ==> url[n] == '?')
  {
    if '?' in url {
      MarkedUrlParts(url);
    }
  }

  lemma MarkedUrlParts(url: string)
    requires '?' in url
    ensures var n := |PathOf(url)| + 1 + |QueryOf(url)|;
              n <= |url| && url[..n] == PathOf(url) + "?" + QueryOf(url) && (n < |url| ==> url[n] == '?')
  {
    var head, rest := SplitHead(url, '?');
    MarkedSplit(url, head, rest);
  }

  /** The path and query of a URL cut at its first '?' into head and rest. */
  lemma MarkedSplit(url: string, head: string, rest: string)
    requires url == head + "?" + rest && '?' !in head
    requires Split(url, '?') == [head] + Split(rest, '?')
    ensures var n := |PathOf(url)| + 1 + |QueryOf(url)|;
              n <= |url| && url[..n] == PathOf(url) + "?" + QueryOf(url) && (n < |url| ==> url[n] == '?')
  {
    if '?' in rest {
      QueryWithTail(url, head, rest);
    } else {
      QueryToEnd(url, head, rest);
    }
    UrlMarked(url, head, rest, Split(rest, '?')[0]);
  }

  /** Moves the facts about the split's pieces over to the path and the query. */
  lemma UrlMarked(url: string, head: string, rest: string, q: string)
    requires '?' in url && Split(url, '?') == [head] + Split(rest, '?') && q == Split(rest, '?')[0]
    requires var n := |head| + 1 + |q|; n <= |url| && url[..n] == head + "?" + q && (n < |url| ==> url[n] == '?')
    ensures var n := |PathOf(url)| + 1 + |QueryOf(url)|;
              n <= |url| && url[..n] == PathOf(url) + "?" + QueryOf(url) && (n < |url| ==> url[n] == '?')
  {
    MarkedPieces(url, head, rest);
  }

  lemma MarkedPieces(url: string, head: string, rest: string)
    requires '?' in url && Split(url, '?') == [head] + Split(rest, '?')
    ensures PathOf(url) == head && QueryOf(url) == Split(rest, '?')[0]
  {
    var pieces := Split(rest, '?');
    assert ([head] + pieces)[0] == head && ([head] + pieces)[1] == pieces[0];
  }

  lemma QueryToEnd(url: string, head: string, rest: string)
    requires url == head + "?" + rest && '?' !in rest
    ensures var n := |head| + 1 + |Split(rest, '?')[0]|;
      n == |url| && url[..n] == head + "?" + Split(rest, '?')[0] && '?' !in Split(rest, '?')[0]
  {
    assert Split(rest, '?') == [rest];
    assert url[..|url|] == url;
  }

  lemma QueryWithTail(url: string, head: string, rest: string)
    requires url == head + "?" + rest && '?' in rest && '?' !in head
    ensures var n := |head| + 1 + |Split(rest, '?')[0]|;
      n < |url| && url[..n] == head + "?" + Split(rest, '?')[0] && url[n] == '?' && '?' !in Split(rest, '?')[0]
  {
    var query, tail := SplitHead(rest, '?');
    Regroup(head, query, tail);
    ConcatSplit(head + "?" + query, "?" + tail);
  }

  lemma Regroup(h: string, q: string, t: string)
    ensures h + "?" + (q + "?" + t) == (h + "?" + q) + ("?" + t)
  {
  }

  lemma ConcatSplit(a: string, b: string)
    requires |b| > 0
    ensures (a + b)[..|a|] == a && (a + b)[|a|] == b[0]
  {
  }

  /** PathString(value) throws unless the value is empty or starts with '/'. */
  predicate ValidPath(p: string)
    ensures ValidPath(p) <==> p == [] || p[..1] == "/"
  {
    |p| == 0 || p[0] == '/'
  }

  /** Headers[name]: a missing header reads as an empty (null) value. */
  function HeaderValue(headers: map<HeaderName, string>, name: HeaderName): Option<string> {
    if name in headers then Some(headers[name]) else None
  }

  /** The host handed to the resolver: X-Forwarded-Host when it is not blank, otherwise the request's own. */
  function EffectiveHost(d: RequestData): (host: string)
    ensures !IsNullOrWhiteSpace(HeaderValue(d.headers, ForwardedHostHeader)) ==> host == d.headers[ForwardedHostHeader]
    ensures IsNullOrWhiteSpace(HeaderValue(d.headers, ForwardedHostHeader)) ==> host == d.host
  {
    var forwarded := HeaderValue(d.headers, ForwardedHostHeader);
    if !IsNullOrWhiteSpace(forwarded) then forwarded.value else d.host
  }

  /** What the resolver is asked to resolve for a URL header value. */
  function ResolveArgsFor(d: RequestData, url: string): (r: ResolveArgs)
    ensures r.scheme == d.scheme && r.pathBase == d.pathBase && r.host == EffectiveHost(d)
    ensures '?' !in r.path && '?' !in r.query
    ensures '?' !in url ==> r.path == url && r.query == ""
  {
    ResolveArgs(d.scheme, EffectiveHost(d), d.pathBase, PathOf(url), QueryOf(url))
  }

  /** The copy's request after the URL section: the new path, and the query when it is not blank. */
  function Pointed(d: RequestData, url: string): (p: RequestData)
    ensures p.path == PathOf(url)
    ensures IsNullOrWhiteSpace(Some(QueryOf(url))) ==> p.queryString == d.queryString
    ensures !IsNullOrWhiteSpace(Some(QueryOf(url))) ==> p.queryString == "?" + QueryOf(url)
    ensures p.(path := d.path, queryString := d.queryString) == d
  {
    d.(path := PathOf(url),
       queryString := if !IsNullOrWhiteSpace(Some(QueryOf(url))) then "?" + QueryOf(url) else d.queryString)
  }

  /** The items the URL section adds, in order: the page when its ID is positive, then the resolver. */
  function ResolverPairs(res: Resolution): (r: seq<(ItemKey, ItemValue)>)
    ensures 1 <= |r| <= 2 && r[|r| - 1] == (ResolverKey, ResolverItem(res))
    ensures |r| == 2 <==> res.page.Some? && res.page.value.id > 0
    ensures |r| == 2 ==> r[0] == (PageKey, PageItem(res.page.value))
  {
    (if res.page.Some? && res.page.value.id > 0 then [(PageKey, PageItem(res.page.value))] else [])
    + [(ResolverKey, ResolverItem(res))]
  }

  /** The items the URL section and the console section add, in order. */
  function Recorded(res: Resolution, console: Console): (r: seq<(ItemKey, ItemValue)>)
    ensures |r| >= 2 && r[..|r| - 1] == ResolverPairs(res) && r[|r| - 1] == (ConsoleKey, ConsoleItem(console))
    ensures DistinctKeys(r)
  {
    ResolverPairs(res) + [(ConsoleKey, ConsoleItem(console))]
  }

  /**
   * The filter's additions to Items succeed exactly when none of their keys is there yet; the page
   * is stored only when its ID is positive, resolver and console always; nothing present is replaced.
   */
  lemma RecordedItems(entries: map<ItemKey, ItemValue>, res: Resolution, console: Console)
    ensures var (ok, e) := AddAll(entries, Recorded(res, console));
      && (ok <==> ResolverKey !in entries && ConsoleKey !in entries
                  && (res.page.Some? && res.page.value.id > 0 ==> PageKey !in entries))
      && (ok ==> ResolverKey in e && e[ResolverKey] == ResolverItem(res))
      && (ok ==> ConsoleKey in e && e[ConsoleKey] == ConsoleItem(console))
      && (ok ==> (PageKey in e && PageKey !in entries <==> res.page.Some? && res.page.value.id > 0))
      && (ok && res.page.Some? && res.page.value.id > 0 ==> PageKey in e && e[PageKey] == PageItem(res.page.value))
      && (forall k :: k in entries ==> k in e && e[k] == entries[k])
      && (forall k :: k in e && k !in entries ==> k == PageKey || k == ResolverKey || k == ConsoleKey)
  {
    var pairs := Recorded(res, console);
    assert DistinctKeys(pairs);
    AddAllDistinct(entries, pairs);
    var (ok, e) := AddAll(entries, pairs);
    if ok {
      assert (ResolverKey, ResolverItem(res)) == pairs[|pairs| - 2];
      assert (ConsoleKey, ConsoleItem(console)) == pairs[|pairs| - 1];
      if res.page.Some? && res.page.value.id > 0 {
        assert pairs[0] == (PageKey, PageItem(res.page.value));
      }
    }
  }

  // ---------------------------------------------------------------------------------------------
  // OnActionExecutionAsync

  /**
   * OnActionExecutionAsync up to next(): ok is false when an exception escapes. The resolver is given
   * as the function from its arguments to its result; the console's own lookups as its initial list
   * and list instance.
   */
  method OnActionExecution(context: HttpContext, arguments: seq<Argument>, resolve: ResolveArgs -> Resolution,
                           initialList: Option<ListRef>, initialListInstance: Option<ListInstanceRef>)
    returns (ok: bool, copy: HttpContext, console: Console?)
    modifies context.items
    ensures fresh(copy) && fresh(copy.request) && copy.items == context.items
    ensures var d := old(context.request.Data());
            var posted := PostedHeaders(d, arguments);
      && (!posted.0 ==> !ok && console == null && context.items.entries == old(context.items.entries))
      && (posted.0 && UrlHeader !in d.headers ==>
            ok && console == null && context.items.entries == old(context.items.entries)
            && copy.request.Data() == d.(headers := posted.1))
      && (posted.0 && UrlHeader in d.headers && !ValidPath(PathOf(d.headers[UrlHeader])) ==>
            !ok && console == null && context.items.entries == old(context.items.entries))
      && (posted.0 && UrlHeader in d.headers && ValidPath(PathOf(d.headers[UrlHeader])) ==>
            var url := d.headers[UrlHeader];
            var res := resolve(ResolveArgsFor(d, url));
            && console != null && fresh(console) && console.context == copy
            && copy.request.Data() == Pointed(d.(headers := posted.1), url)
            && console.currentList == (if res.list.Some? then res.list else initialList)
            && console.currentListInstance == (if res.listInstance.Some? then res.listInstance else initialListInstance)
            && (ok ==> console.item == res.itemID)
            && (ok, context.items.entries) == AddAll(old(context.items.entries), Recorded(res, console)))
  {
    copy := context.Clone();
    // the copy is then given the original's Items, so both contexts share one bag
    copy.items := context.items;
    console := null;
    ok := AddPostedFieldHeaders(copy.request, context.request.httpMethod == PostMethod, arguments);
    if !ok {
      return;
    }
    if UrlHeader in context.request.headers {
      ok, console := ConsoleForUrl(context, copy, resolve, initialList, initialListInstance);
      if !ok {
        if console != null {
          ghost var res := resolve(ResolveArgsFor(old(context.request.Data()), context.request.headers[UrlHeader]));
          AddAllSnoc(old(context.items.entries), ResolverPairs(res), (ConsoleKey, ConsoleItem(console)));
        }
        return;
      }
    }
    if console != null {
      ghost var res := resolve(ResolveArgsFor(old(context.request.Data()), context.request.headers[UrlHeader]));
      AddAllSnoc(old(context.items.entries), ResolverPairs(res), (ConsoleKey, ConsoleItem(console)));
      ok := context.items.Add(ConsoleKey, ConsoleItem(console));
    }
  }

  /**
   * The URL section: the copy gets the header's path and query, a console is made for the copy and
   * the resolver's findings are recorded; ok is false when an exception escapes.
   */
  method ConsoleForUrl(context: HttpContext, copy: HttpContext, resolve: ResolveArgs -> Resolution,
                       initialList: Option<ListRef>, initialListInstance: Option<ListInstanceRef>)
    returns (ok: bool, console: Console?)
    requires UrlHeader in context.request.headers
    requires copy.items == context.items && copy.request != context.request
    modifies copy.request, context.items
    ensures var url := context.request.headers[UrlHeader];
            var res := resolve(ResolveArgsFor(context.request.Data(), url));
      && (!ValidPath(PathOf(url)) ==>
            !ok && console == null && context.items.entries == old(context.items.entries))
      && (ValidPath(PathOf(url)) ==>
            && console != null && fresh(console) && console.context == copy
            && copy.request.Data() == Pointed(old(copy.request.Data()), url)
            && console.currentList == (if res.list.Some? then res.list else initialList)
            && console.currentListInstance == (if res.listInstance.Some? then res.listInstance else initialListInstance)
            && (ok ==> console.item == res.itemID)
            && (ok, context.items.entries) == AddAll(old(context.items.entries), ResolverPairs(res)))
  {
    var url := context.request.headers[UrlHeader];
    var path := PathOf(url);
    if !ValidPath(path) {
      return false, null;
    }
    var query := QueryOf(url);
    var host := context.request.host;
    var forwarded := HeaderValue(context.request.headers, ForwardedHostHeader);
    if !IsNullOrWhiteSpace(forwarded) {
      host := forwarded.value;
    }
    // Path and QueryString of the copy; the resolver gets the original scheme and path base
    copy.request.path := path;
    if !IsNullOrWhiteSpace(Some(query)) {
      copy.request.queryString := "?" + query;
    }
    console := new Console(copy, initialList, initialListInstance);
    var res := resolve(ResolveArgs(context.request.scheme, host, context.request.pathBase, path, query));
    assert res == resolve(ResolveArgsFor(context.request.Data(), url));
    ok := RecordResolution(console, context.items, res);
  }

  /** The resolver section: its findings go onto the console, the page and the resolver into Items. */
  method RecordResolution(console: Console, items: ItemBag, res: Resolution) returns (ok: bool)
    modifies console, items
    ensures console.currentList == (if res.list.Some? then res.list else old(console.currentList))
    ensures console.currentListInstance == (if res.listInstance.Some? then res.listInstance else old(console.currentListInstance))
    ensures ok ==> console.item == res.itemID
    ensures (ok, items.entries) == AddAll(old(items.entries), ResolverPairs(res))
  {
    if res.list.Some? {
      console.currentList := res.list;
    }
    if res.listInstance.Some? {
      console.currentListInstance := res.listInstance;
    }
    var resolverPair := (ResolverKey, ResolverItem(res));
    if res.page.Some? && res.page.value.id > 0 {
      var pagePair := (PageKey, PageItem(res.page.value));
      ok := items.Add(pagePair.0, pagePair.1);
      AddAllSnoc(old(items.entries), [pagePair], resolverPair);
      if !ok {
        return;
      }
    }
    console.item := res.itemID;
    ok := items.Add(resolverPair.0, resolverPair.1);
  }
}
