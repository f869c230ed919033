# Sushi.Mediakiwi request core, modelled in Dafny

This project models four request-scoped pieces of Sushi.Mediakiwi, a .NET content management
platform. For each it proves what the code guarantees on every path, error paths included, as
listed in the table under "Model": the outcome of each branch, the round trips of stored date text
and gallery values, the row balance of the form markup, and what each state change leaves alone.

- **The date field** (`DateAttribute`, module `DateField`, a class with the field's state).
  - `SetCandidate` reads an optional candidate date from one of three sources: the raw blueprint
    text, the bound property, or the submitted form value.
  - Stored text has two encodings. Text with a `-` is a date in the NL culture. Any other text is a
    tick count read with `long.Parse`.
  - The candidate is written back to a `DateTime`, `DateTime?` or custom-data binding, and
    `OutputText` is derived from it.
  - `WriteCandidate` applies the edit-mode override and the shared-field overlay. It then renders an
    input (visible or cloaked) or read-only text, and always adds one API field descriptor.
  - `IsValid` is the save-mode rule. It reads the save mode through the console's current list
    instance, so it throws when there is none, and so does `WriteCandidate` for an editable field.
  - A `DateTime` is its tick count and kind. Culture parsing, date formatting and conversion to UTC
    are uninterpreted functions. The markup is a sequence of tokens, one per `Append`, that keeps
    the row and cell boundaries of the two-column form table exact.
- **The console filter** (`MediakiwiConsoleFilter.OnActionExecutionAsync`, module `ConsoleFilter`).
  - It copies each non-blank posted field of a POST into a `postedField` header of the context copy.
  - It splits the URL header on `?` into a path and a query, and lets `X-Forwarded-Host` replace the host.
  - It builds a console for the copy and asks the URL resolver what the URL points at.
  - It copies the resolver's list, list instance and item onto the console, and records the page,
    the resolver and the console in `HttpContext.Items`, whose `Add` throws on a duplicate key. The
    copy is given the original's `Items` right after it is cloned, so the page the code adds to the
    copy's `Items` and the resolver and console it adds to the original's land in one shared bag.
  - The resolver is a function from its arguments to its result.
- **Content dispatch** (`Content.GetContent` and `PostContent`, module `Content`). A request without a
  site (or, for a POST, without a posted field) is refused. Otherwise the answer is the list for a
  non-Browsing list instance, nothing for a page, and the folder explorer otherwise.
- **Assets** (`AssetController.SaveAsset` and `GetGalleries`, module `AssetController`).
  - `SaveAsset` runs an ordered chain of BadRequest checks, then merges gallery, description and
    title into a new or stored asset. It takes the extension from the last dot of the file name and
    reports which persistence call it makes.
  - `GetGalleries` maps the galleries to options in a loop.

Supporting modules:

- `Wrappers`: Option and Result.
- `Text`: the `System.String` operations the code relies on.
- `Decimal`: `Int64.ToString()` and `long.Parse`, and their round trip.
- `DateValues`: dates, the dual encoding, the submitted-value read.
- `Layout`: row and cell tokens, and the row-balance state machine.
- `Api`: the resolver's result and the request and response shapes of the controllers.

Five behaviours of the code that are easy to miss, each modelled as the code has it:

- A tick-count text that `long.Parse` refuses throws, and nothing catches it. The read does not
  degrade to an absent date.
- On the edit path, the parsed date is assigned before the current list's UTC option is consulted.
  An exception there is swallowed, so the parsed date stays.
- A non-nullable `DateTime` property given `null` receives its default, `DateTime.MinValue`.
- The round trip of `WriteCandidate`'s result through `SetCandidate` holds on the blueprint read
  path. It restores the ticks of the candidate but not its kind.
- The posted field is added as a header of the context copy, not recorded on the console.

## Model

| member | source | states |
|---|---|---|
| DateField.DateAttribute.constructor | src/Sushi.Mediakiwi/Framework/ContentInfoItem/DateAttribute.cs:24-40 | a new date field keeps its configuration and mandatory flag, has no candidate, no output text and is not cloaked |
| DateValues.ReadLegacyDate | src/Sushi.Mediakiwi/Framework/ContentInfoItem/DateAttribute.cs:67-84 | empty or missing text gives no date; text with a '-' is whatever the NL-culture parse gives (none when it fails); other text reads without throwing exactly when long.Parse accepts it and the ticks lie in DateTime's range, and then gives an Unspecified date of exactly those ticks |
| DateValues.FromTickText | src/Sushi.Mediakiwi/Framework/ContentInfoItem/DateAttribute.cs:82 | a text long.Parse refuses throws its parse fault; a parsed value outside DateTime's ticks range throws; otherwise the date has exactly the parsed ticks and kind Unspecified |
| DateField.ReadBound | src/Sushi.Mediakiwi/Framework/ContentInfoItem/DateAttribute.cs:86-104 | reading the bound data throws exactly when there is no property, or a custom-data binding has no field; a DateTime property holding MinValue gives no candidate; a DateTime? property is copied as it is; custom data is parsed from the field's slot |
| DateField.FormValue | src/Sushi.Mediakiwi/Framework/ContentInfoItem/DateAttribute.cs:108-112 | Console.Form gives a value exactly for a field ID the posted form has, and then that value |
| DateValues.ReadSubmitted | src/Sushi.Mediakiwi/Framework/ContentInfoItem/DateAttribute.cs:106-126 | the edit path yields a date exactly when the form value is non-empty, the culture exists and the text parses; it converts to UTC only when the list asks for it and the date is not UTC already; it never throws |
| DateField.CandidateFrom | src/Sushi.Mediakiwi/Framework/ContentInfoItem/DateAttribute.cs:64-127 | on the edit path the candidate is the submitted value; on the initial load or outside edit mode a blueprint reads its stored text and any other field its bound data; only the load path can throw |
| DateField.WritesBack | src/Sushi.Mediakiwi/Framework/ContentInfoItem/DateAttribute.cs:129 | a blueprint never writes back; a field writes back exactly when it is bound to a writable property |
| DateField.AfterSetCandidate | src/Sushi.Mediakiwi/Framework/ContentInfoItem/DateAttribute.cs:57-174 | SetCandidate returns normally exactly when the candidate read and the write-back succeed and the shown inherited value is not a refused tick text; once written back, OutputText shows the candidate and the bound data holds the write-back's values, whether or not the inherited section throws, and the inherited section then runs on that state; a read that throws leaves everything but the reset candidate as it was, and a failed write-back everything but the new candidate |
| DateField.WriteBack | src/Sushi.Mediakiwi/Framework/ContentInfoItem/DateAttribute.cs:129-146 | the write-back fails only for a writable custom-data binding without a field; it changes the bound data and nothing else, and nothing at all for a field that does not write back; a DateTime property receives the candidate or MinValue for none, a DateTime? property the candidate, and a custom-data slot the candidate's tick text |
| DateField.Display | src/Sushi.Mediakiwi/Framework/ContentInfoItem/DateAttribute.cs:148-155 | OutputText is null exactly when there is no candidate, and otherwise the candidate in the console's date format |
| DateField.InheritedStep | src/Sushi.Mediakiwi/Framework/ContentInfoItem/DateAttribute.cs:157-173 | only the inherited text can change; the section throws exactly when the inherited value is shown and its tick text is refused; a shown value that reads as a date sets the text to that date formatted, and the text changes in no other way |
| DateField.ShowsInherited | src/Sushi.Mediakiwi/Framework/ContentInfoItem/DateAttribute.cs:158 | the inherited section runs exactly when inherited data is shown and the field has a non-empty inherited value |
| DateField.DateAttribute.SetCandidate | src/Sushi.Mediakiwi/Framework/ContentInfoItem/DateAttribute.cs:57-174 | the new field state and whether the call returns normally are exactly AfterSetCandidate of the old state; the mandatory and cloaked flags are unchanged |
| DateField.SetCandidateRules | src/Sushi.Mediakiwi/Framework/ContentInfoItem/DateAttribute.cs:64-173 | the candidate is the one read (none when the read throws), and reading a submitted value never throws; once the candidate is written back OutputText is null exactly when the candidate is absent, and otherwise the candidate formatted; only a writable non-blueprint binding changes the bound data, each property type in its own way, whenever the read succeeds; the inherited text changes only when it is shown |
| DateField.DateAttribute.WriteBackCandidate | src/Sushi.Mediakiwi/Framework/ContentInfoItem/DateAttribute.cs:129-146 | the write-back succeeds exactly when WriteBack defines a new state, and the field then holds that state; otherwise nothing changes |
| DateValues.StoredText | src/Sushi.Mediakiwi/Framework/ContentInfoItem/DateAttribute.cs:133 | the custom-data text is null exactly for no candidate or MinValue, and otherwise digits whose value is the candidate's ticks |
| DateField.DateAttribute.ShowInherited | src/Sushi.Mediakiwi/Framework/ContentInfoItem/DateAttribute.cs:157-173 | the inherited section matches InheritedStep: read with the dual encoding only when inherited data is shown and present |
| DateValues.TickText | src/Sushi.Mediakiwi/Framework/ContentInfoItem/DateAttribute.cs:315 | the returned text is null exactly when there is no candidate, and otherwise a non-empty run of digits |
| DateValues.TickTextRoundTrip | src/Sushi.Mediakiwi/Framework/ContentInfoItem/DateAttribute.cs:67-84 | the tick text written for any candidate reads back through the dual encoding without throwing, as the same ticks (or as no date) |
| DateField.BlueprintRoundTrip | src/Sushi.Mediakiwi/Framework/ContentInfoItem/DateAttribute.cs:64-84 | the Field WriteCandidate returns, fed to SetCandidate of a blueprint on the load path, returns normally with a candidate of the same ticks, or none when there was none |
| Decimal.ParseLong | src/Sushi.Mediakiwi/Framework/ContentInfoItem/DateAttribute.cs:82 | long.Parse succeeds only inside the Int64 range and only on text holding a digit |
| Decimal.ParseLongAccepts | src/Sushi.Mediakiwi/Framework/ContentInfoItem/DateAttribute.cs:82 | white space, an optional '+' or '-', one or more digits and white space parse to the signed value of the digits when it fits in an Int64, and overflow otherwise |
| Decimal.ParseLongShape | src/Sushi.Mediakiwi/Framework/ContentInfoItem/DateAttribute.cs:82 | every text long.Parse does not refuse as malformed has exactly that shape, and its result is the signed value of its digits or an overflow; so "1a" and the empty text are refused |
| Decimal.ParseIntToString | src/Sushi.Mediakiwi/Framework/ContentInfoItem/DateAttribute.cs:82 | long.Parse reads back what Int64.ToString() wrote, for every Int64 |
| Decimal.ParseNatToString | src/Sushi.Mediakiwi/Framework/ContentInfoItem/DateAttribute.cs:82 | long.Parse reads back the decimal text of every non-negative Int64 |
| DateField.DateAttribute.IsValid | src/Sushi.Mediakiwi/Framework/ContentInfoItem/DateAttribute.cs:322-339 | sets Mandatory; throws exactly when the console has no current list instance; outside save mode always valid; in save mode invalid when the base check fails, and otherwise valid exactly when the field is not required or has a candidate |
| DateField.Validity | src/Sushi.Mediakiwi/Framework/ContentInfoItem/DateAttribute.cs:322-339 | a field is valid exactly outside save mode, or when the base check passes and it is not required or has a candidate |
| DateField.DateAttribute.WriteCandidate | src/Sushi.Mediakiwi/Framework/ContentInfoItem/DateAttribute.cs:191-316 | cloaked flag and OutputText are the overlay's; editable means edit mode, no override and enabled; an editable field without a current list instance throws with nothing rendered or added; otherwise the visible markup, the cloaked channel and exactly one appended descriptor are as stated and the result is the candidate's tick text; the candidate and bound data are unchanged |
| DateField.DateAttribute.ApplySharedOverlay | src/Sushi.Mediakiwi/Framework/ContentInfoItem/DateAttribute.cs:202-223 | enabled, cloaked and OutputText become the Overlay of their old values; nothing else changes |
| DateField.Overlay | src/Sushi.Mediakiwi/Framework/ContentInfoItem/DateAttribute.cs:205-223 | a field that is not shared keeps its state; a shared one takes the overlay's enabled flag; the overlay can cloak but never uncloak; it replaces OutputText only with a non-blank value |
| DateField.DateAttribute.Emit | src/Sushi.Mediakiwi/Framework/ContentInfoItem/DateAttribute.cs:225-315 | throws, with the builder untouched, exactly when the field is editable and there is no current list instance; otherwise the control (or text) is rendered, exactly one descriptor is added and the tick text is returned; the field state is unchanged |
| DateField.DateAttribute.RenderControl | src/Sushi.Mediakiwi/Framework/ContentInfoItem/DateAttribute.cs:225-300 | fails, with nothing appended, exactly when the field is editable and there is no current list instance; otherwise an editable cloaked field appends its input to the cloaked channel only, an editable visible field appends the wrapper, and a read-only field appends one simple-text token; no descriptor is added |
| DateField.VisibleMarkup | src/Sushi.Mediakiwi/Framework/ContentInfoItem/DateAttribute.cs:225-300 | read-only output is exactly the simple text of OutputText; an editable cloaked field adds no visible markup; an editable visible field's markup holds its input |
| DateField.AppendWrapper | src/Sushi.Mediakiwi/Framework/ContentInfoItem/DateAttribute.cs:249-294 | the visible markup grows by exactly the Wrapper tokens; the cloaked channel and the descriptors are unchanged |
| DateField.AppendRowLead | src/Sushi.Mediakiwi/Framework/ContentInfoItem/DateAttribute.cs:253-273 | the markup grows by exactly the row lead: the translation, or the fillers and row opening the two expressions call for |
| DateField.AppendCells | src/Sushi.Mediakiwi/Framework/ContentInfoItem/DateAttribute.cs:275-287 | the markup grows by the label cell and the data cell around the input |
| DateField.AppendRowTail | src/Sushi.Mediakiwi/Framework/ContentInfoItem/DateAttribute.cs:289-292 | the markup grows by a row close exactly for FullWidth and Right |
| Layout.RowLead | src/Sushi.Mediakiwi/Framework/ContentInfoItem/DateAttribute.cs:253-273 | with inherited data shown the lead is the translation alone; otherwise it is at most two tokens, never closes a row, and opens one exactly unless the field is Right |
| Layout.RowTail | src/Sushi.Mediakiwi/Framework/ContentInfoItem/DateAttribute.cs:289-292 | at most one token, a row close exactly unless the field is Left |
| Layout.CellTokens | src/Sushi.Mediakiwi/Framework/ContentInfoItem/DateAttribute.cs:259-292 | the label and data cells are five tokens, starting with the label and holding the input, and neither open nor close a row |
| Layout.Wrapper | src/Sushi.Mediakiwi/Framework/ContentInfoItem/DateAttribute.cs:253-292 | the wrapper is the row lead, five cell tokens and the row tail |
| Layout.WrapperShape | src/Sushi.Mediakiwi/Framework/ContentInfoItem/DateAttribute.cs:253-292 | with inherited data hidden, FullWidth and Left open a row; FullWidth and Right close one; Left then Left or FullWidth gets the row-closing filler; FullWidth or Right then Right gets the row-opening filler; the input and its label are always there |
| Layout.RowLeadRows | src/Sushi.Mediakiwi/Framework/ContentInfoItem/DateAttribute.cs:259-272 | from the row state the previous field left, the fillers and row opening always leave exactly one row open |
| Layout.WrapperKeepsRows | src/Sushi.Mediakiwi/Framework/ContentInfoItem/DateAttribute.cs:259-292 | one field's wrapper never closes a row that is not open or opens one twice, and leaves a row open exactly when the field is Left |
| Layout.PassKeepsRows | src/Sushi.Mediakiwi/Framework/ContentInfoItem/DateAttribute.cs:259-292 | over a whole render pass the rows nest properly, and only a trailing Left field leaves a row open |
| DateField.Descriptor | src/Sushi.Mediakiwi/Framework/ContentInfoItem/DateAttribute.cs:302-313 | the descriptor's event is change exactly when AutoPostBack is set; it carries OutputText, the ID and the expression; an unbound field reports the DateTime type |
| DateField.ControlBuilder.Append | src/Sushi.Mediakiwi/Framework/ContentInfoItem/DateAttribute.cs:285 | appends one token to the visible markup and changes nothing else |
| DateField.ControlBuilder.AppendCloaked | src/Sushi.Mediakiwi/Framework/ContentInfoItem/DateAttribute.cs:245 | appends one token to the cloaked channel and changes nothing else |
| DateField.ControlBuilder.AddField | src/Sushi.Mediakiwi/Framework/ContentInfoItem/DateAttribute.cs:302-313 | appends one descriptor to the API response and changes nothing else |
| ConsoleFilter.OnActionExecution | src/Sushi.Mediakiwi.API/Filters/MediakiwiConsoleFilter.cs:18-107 | a failing posted-field Add stops everything; without a URL header no console is made and Items is untouched; an invalid path throws before anything is added; otherwise the copy points at the URL, the console takes the resolver's list and list instance where present, and Items receives page, resolver and console in order, failing on the first duplicate key; the copy shares the original's Items bag |
| ConsoleFilter.AddPostedFieldHeaders | src/Sushi.Mediakiwi.API/Filters/MediakiwiConsoleFilter.cs:24-39 | outside POST nothing changes; on POST the headers are the in-order Adds of the posted fields, the flag says whether all succeeded, and nothing else of the request changes |
| ConsoleFilter.PostedPairs | src/Sushi.Mediakiwi.API/Filters/MediakiwiConsoleFilter.cs:28-36 | every header contributed is a postedField header with a non-blank value, and there are no more of them than arguments |
| ConsoleFilter.PostedPairsSnoc | src/Sushi.Mediakiwi.API/Filters/MediakiwiConsoleFilter.cs:28-36 | each argument, in order, contributes one postedField header exactly when it is a PostContentRequest with a non-blank posted field, and none otherwise |
| ConsoleFilter.PostedHeaders | src/Sushi.Mediakiwi.API/Filters/MediakiwiConsoleFilter.cs:24-39 | outside POST the headers are untouched; on POST every header already present keeps its value |
| ConsoleFilter.AddAll | src/Sushi.Mediakiwi.API/Filters/MediakiwiConsoleFilter.cs:28-37 | a run of Adds never replaces an entry already present, whether it succeeds or stops at a duplicate |
| ConsoleFilter.PostedHeaderRule | src/Sushi.Mediakiwi.API/Filters/MediakiwiConsoleFilter.cs:24-39 | the POST section succeeds exactly outside POST, with no non-blank posted field, or with a single one and no postedField header already present; it then holds that value |
| ConsoleFilter.HttpRequest.AddHeader | src/Sushi.Mediakiwi.API/Filters/MediakiwiConsoleFilter.cs:34 | Headers.Add succeeds exactly when the header is absent, and then adds it; nothing else changes |
| ConsoleFilter.HttpContext.Clone | src/Sushi.Mediakiwi.API/Filters/MediakiwiConsoleFilter.cs:20 | the copy is a new context with a new request equal to the original |
| Text.Split | src/Sushi.Mediakiwi.API/Filters/MediakiwiConsoleFilter.cs:49-50 | a split has at least one piece, at least two exactly when the separator occurs, and is the whole text when it does not |
| Text.JoinSplit | src/Sushi.Mediakiwi.API/Filters/MediakiwiConsoleFilter.cs:49-50 | joining the pieces of a split with the separator gives back the text |
| Text.SplitPieces | src/Sushi.Mediakiwi.API/Filters/MediakiwiConsoleFilter.cs:49-50 | no piece of a split contains the separator |
| ConsoleFilter.PathOf | src/Sushi.Mediakiwi.API/Filters/MediakiwiConsoleFilter.cs:49 | the path holds no '?', and is the whole URL when it has none |
| ConsoleFilter.QueryOf | src/Sushi.Mediakiwi.API/Filters/MediakiwiConsoleFilter.cs:50 | the query holds no '?', and is empty when the URL has none |
| ConsoleFilter.UrlParts | src/Sushi.Mediakiwi.API/Filters/MediakiwiConsoleFilter.cs:49-50 | the path is the text before the first '?' and the query the text up to the next '?' (or the end); without a '?' the path is the whole text and the query is empty |
| ConsoleFilter.EffectiveHost | src/Sushi.Mediakiwi.API/Filters/MediakiwiConsoleFilter.cs:53-56 | a non-blank X-Forwarded-Host replaces the host; otherwise the request's host is used |
| ConsoleFilter.Pointed | src/Sushi.Mediakiwi.API/Filters/MediakiwiConsoleFilter.cs:59-63 | the copy's path is the URL's path; its query string becomes "?" and the query only when the query is not blank; nothing else changes |
| ConsoleFilter.ValidPath | src/Sushi.Mediakiwi.API/Filters/MediakiwiConsoleFilter.cs:49 | a PathString accepts exactly the empty text or a text starting with '/' |
| ConsoleFilter.ResolveArgsFor | src/Sushi.Mediakiwi.API/Filters/MediakiwiConsoleFilter.cs:46-72 | the resolver gets the original scheme and path base, the forwarded or own host, and a path and query without '?', the whole URL as path when it has none |
| ConsoleFilter.ConsoleForUrl | src/Sushi.Mediakiwi.API/Filters/MediakiwiConsoleFilter.cs:43-97 | an invalid path throws before any change to Items; otherwise a fresh console for the copy takes the resolver's findings and the page and resolver are added in order |
| ConsoleFilter.Console.constructor | src/Sushi.Mediakiwi.API/Filters/MediakiwiConsoleFilter.cs:66 | a new console belongs to the copy and starts with the list and list instance its construction found and no item |
| ConsoleFilter.RecordResolution | src/Sushi.Mediakiwi.API/Filters/MediakiwiConsoleFilter.cs:74-96 | CurrentList and CurrentListInstance change only to a non-null resolver value; Item becomes the item ID once the page Add succeeds; Items receives the page (only for a positive ID) and then the resolver |
| ConsoleFilter.ResolverPairs | src/Sushi.Mediakiwi.API/Filters/MediakiwiConsoleFilter.cs:86-96 | the resolver section adds the page first exactly when its ID is positive, and the resolver last |
| ConsoleFilter.Recorded | src/Sushi.Mediakiwi.API/Filters/MediakiwiConsoleFilter.cs:86-104 | the filter adds the resolver section's items and then the console, all under distinct keys |
| ConsoleFilter.ItemBag.Add | src/Sushi.Mediakiwi.API/Filters/MediakiwiConsoleFilter.cs:96 | Items.Add succeeds exactly when the key is absent, and then adds the pair |
| ConsoleFilter.RecordedItems | src/Sushi.Mediakiwi.API/Filters/MediakiwiConsoleFilter.cs:87-104 | the additions succeed exactly when none of their keys is present; the page is stored only for a positive ID, resolver and console always; no entry present is replaced and no other key appears |
| ConsoleFilter.AddAllDistinct | src/Sushi.Mediakiwi.API/Filters/MediakiwiConsoleFilter.cs:89-103 | Adds with distinct keys all succeed exactly when no key is present; present entries are kept; on success each key holds its value and only these keys are new |
| ConsoleFilter.AddAllSameKey | src/Sushi.Mediakiwi.API/Filters/MediakiwiConsoleFilter.cs:28-37 | Adds under one key succeed only for no value at all, or for one value when the key was absent |
| Text.ContainsIgnoreCase | src/Sushi.Mediakiwi.API/Controllers/Content.cs:48 | the needle occurs at some position of the text, letter case aside, exactly when the result is true |
| Content.IsListView | src/Sushi.Mediakiwi.API/Controllers/Content.cs:48 | a list view always has a list instance and a list |
| Content.ClassNameThrows | src/Sushi.Mediakiwi.API/Controllers/Content.cs:48 | reading the class name throws only with a list instance, and never for a list view |
| Content.GetContent | src/Sushi.Mediakiwi.API/Controllers/Content.cs:38-67 | BadRequest exactly without a site; the list (with its edit mode and OK) exactly for a non-Browsing list instance; nothing and no status for a page; the explorer with OK otherwise; never both list and explorer |
| Content.BrowsingListNotShown | src/Sushi.Mediakiwi.API/Controllers/Content.cs:48 | a class name containing the Browsing implementation in any letter case is never shown as a list |
| Content.PostContent | src/Sushi.Mediakiwi.API/Controllers/Content.cs:83-101 | BadRequest exactly without a site or with a null or empty posted field; otherwise the list exactly when there is a list instance, Browsing or not, and an empty response without one |
| AssetController.SaveAsset | src/Sushi.Mediakiwi.API/Controllers/AssetController.cs:150-231 | BadRequest exactly for the ordered chain of checks, with nothing saved; a missing stored asset or an upload without a file name faults, the latter leaving the asset merged and given the upload's content type; otherwise the asset is the merge of the request into the new or stored asset, the upload happens only with data, and the response reports the asset; the stored asset is untouched unless the request passes and names a positive ID |
| AssetController.Rejected | src/Sushi.Mediakiwi.API/Controllers/AssetController.cs:153-178 | a missing request is rejected; a request that passes has a dot in any file name it gives |
| AssetController.NoExtension | src/Sushi.Mediakiwi.API/Controllers/AssetController.cs:158-162 | the check trips exactly for a given file name with no dot in any position |
| AssetController.IsNew | src/Sushi.Mediakiwi.API/Controllers/AssetController.cs:164-165 | a request is for a new asset exactly when its ID is missing or 0 |
| AssetController.MissingData | src/Sushi.Mediakiwi.API/Controllers/AssetController.cs:167-171 | a new asset passes the data check exactly with a file of non-zero length whose name is given and not blank |
| AssetController.MissingGallery | src/Sushi.Mediakiwi.API/Controllers/AssetController.cs:173-177 | a new asset lacks a gallery exactly when its gallery ID is missing or 0 |
| AssetController.AcceptedNewAsset | src/Sushi.Mediakiwi.API/Controllers/AssetController.cs:165-178 | a new asset that passes the checks has a non-empty file whose name is not blank and has a dot, and a gallery ID other than zero |
| AssetController.MissingFileNamePasses | src/Sushi.Mediakiwi.API/Controllers/AssetController.cs:159-162 | a missing file name does not trip the dot check |
| AssetController.NegativeGalleryIgnored | src/Sushi.Mediakiwi.API/Controllers/AssetController.cs:174-193 | a new asset with a negative gallery ID passes the checks yet keeps gallery 0 |
| AssetController.Extension | src/Sushi.Mediakiwi.API/Controllers/AssetController.cs:210 | the extension is a non-empty suffix of the file name that starts with a dot |
| AssetController.ExtensionIsLastDotSuffix | src/Sushi.Mediakiwi.API/Controllers/AssetController.cs:210 | the extension starts with a dot, contains no other dot and is a suffix of the file name |
| AssetController.Asset.constructor | src/Sushi.Mediakiwi.API/Controllers/AssetController.cs:181 | a new asset has no ID, no gallery and no texts |
| AssetController.Asset.ApplyMetadata | src/Sushi.Mediakiwi.API/Controllers/AssetController.cs:190-204 | the asset afterwards is MergeMetadata of the asset before |
| AssetController.Asset.ApplyRequest | src/Sushi.Mediakiwi.API/Controllers/AssetController.cs:189-220 | the metadata is merged, then an upload sets its content type and extension and is reported as the upload call; an upload without a file name throws after the content type was set; without data only the metadata save is reported |
| AssetController.MergeMetadata | src/Sushi.Mediakiwi.API/Controllers/AssetController.cs:190-204 | the description becomes the request's; only gallery, description and title can change |
| AssetController.MergeUpload | src/Sushi.Mediakiwi.API/Controllers/AssetController.cs:207-210 | an upload sets the content type and an extension that is a dot-led suffix of the file name, and nothing else |
| AssetController.MergeMetadataRules | src/Sushi.Mediakiwi.API/Controllers/AssetController.cs:190-204 | the gallery changes only to a positive request gallery; the description is always the request's; a non-blank request title wins; otherwise the old title stays unless blank, when the file name takes its place; nothing else changes |
| AssetController.MergedTitleNotBlank | src/Sushi.Mediakiwi.API/Controllers/AssetController.cs:201-204 | a blank resulting title is the file name |
| AssetController.MergeMetadataIdempotent | src/Sushi.Mediakiwi.API/Controllers/AssetController.cs:190-204 | merging the same request twice is merging it once |
| AssetController.NewAssetWithoutTitle | src/Sushi.Mediakiwi.API/Controllers/AssetController.cs:196-204 | a new asset saved without a title gets none |
| AssetController.ResponseOf | src/Sushi.Mediakiwi.API/Controllers/AssetController.cs:222-230 | the response carries the asset's ID, gallery, title and description |
| AssetController.GetGalleries | src/Sushi.Mediakiwi.API/Controllers/AssetController.cs:122-138 | one option per gallery, in order, each GalleryOption of its gallery |
| AssetController.GalleryOption | src/Sushi.Mediakiwi.API/Controllers/AssetController.cs:129-134 | the option's text is the gallery's complete path and it is enabled |
| AssetController.GalleryOptionValue | src/Sushi.Mediakiwi.API/Controllers/AssetController.cs:132 | an option's value reads back with long.Parse as its gallery's ID, and two options have the same value exactly when their galleries have the same ID |
| Decimal.IntToStringInjective | src/Sushi.Mediakiwi.API/Controllers/AssetController.cs:132 | distinct numbers have distinct decimal texts |

## Left out

- The URL resolver (`UrlResolver.ResolveUrlAsync`) is not part of this model. It is an arbitrary
  function from its arguments to a list, list instance, page and item ID.
- `Console` construction looks up its own list and list instance. Those lookups are given as the
  console's initial list and list instance.
- `HttpContext.Clone` is taken to copy the request and the items; its real depth of copy is not shown.
  The filter replaces the copy's items with the original's at once, so the model needs nothing more of it.
- `CreateThumbnailImage` is left out: it is floating-point scaling over `System.Drawing`.
- Persistence and blob I/O are left out: `Asset.SelectOneAsync`, `SaveAsync`, `UpsertAssetAsync`,
  `OpenReadStream` and `Gallery.SelectAllAccessibleAsync`.
  - The stored asset and the galleries are parameters.
  - The save calls are reported as a `Persistence` value.
  - Their effect on the asset's ID and remote locations is not modelled.
  - A new `Data.Asset` is taken to start with no ID, gallery or texts.
- `async`/`await` and the call to `next` are left out. The filter is modelled up to `next()`.
- Culture-dependent `DateTime.TryParse`, `ToString(format)`, `ToUniversalTime` and the
  `CultureInfo` constructor are uninterpreted functions. No calendar or time zone is modelled.
- The base-class members are answers given to the model, not modelled:
  - `IsEnabled`, `ApplySharedFieldInformation`, `base.IsValid` and `IsReadOnly` are given values.
  - `ApplyTranslation` and `GetSimpleTextElement` are tokens.
  - `ParseDateTime` is a given function.
  - `ReadCandidate` is taken to wrap the tick text in a Field.
  - `SetContentContainer` is left out.
  - `ApplyContentContainer` is taken to store the text in the field's slot, and to throw when there is no field.
- `SetWriteEnvironment`, `TitleLabel`, `InputPostText`, `CustomErrorText`, `MandatoryWrap` and
  `Class_Wide` are taken to only shape HTML text. The exact HTML is left out: only row and cell boundaries, the
  label, the input's flags and the read-only text are tokens.
- The values of the `Common.*` header and item-key constants are not shown. Headers and item keys
  are enumerations; header names compare exactly, not case-insensitively.
- Property types other than `DateTime`, `DateTime?` and custom data are left out. The code reads
  no candidate for them.
- A null `[FromBody]` request of `GetContent` and `PostContent` throws in the code. The model's
  request is never null. `ActionArguments` that are null are treated as empty.
- Text.ContainsIgnoreCase: folds the ASCII letters only, where `InvariantCultureIgnoreCase` folds
  every letter; the Browsing class name is ASCII.
- Decimal.ParseLong: does not model `long.Parse`'s culture-specific signs or its acceptance of
  trailing NUL characters (`"123\0"` reads as 123 there and is refused here). It accepts the ASCII
  sign, ASCII digits and the white space of `NumberStyles.Integer` (U+0009 to U+000D and U+0020).
