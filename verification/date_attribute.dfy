/**
 * The date field of a generated form: it computes a candidate date from a blueprint value, the bound
 * property or the submitted form, writes it back, renders it as an input or as read-only text into
 * the form's markup, and always adds one field descriptor to the API response.
 */
module DateField {
  import opened Wrappers
  import opened Text
  import opened DateValues
  import opened Layout

  /** The declared type of the property the field is bound to. */
  datatype PropertyType = DateTimeProperty | NullableDateTimeProperty | CustomDataProperty

  datatype BoundProperty = BoundProperty(propertyType: PropertyType, canWrite: bool)

  /** A Field of the content model: the custom-data slot it names, its stored text and its inherited text. */
  datatype Field = Field(property: string, value: Option<string>, inheritedValue: Option<string>)

  /**
   * What the date field reads from the Console of the form it is rendered in: the posted form, the
   * culture and date format, one setting each of the current list and the current list instance,
   * and the layout state the previous field left.
   */
  datatype FieldConsole = FieldConsole(
    form: map<string, string>,        // the posted form values by field ID
    globalisationCulture: string,
    dateFormat: string,
    convertUtc: Option<bool>,         // CurrentList.Option_ConvertUTCToLocalTime; None when there is no current list
    saveMode: Option<bool>,           // CurrentListInstance.wim.IsSaveMode; None when there is no current list instance
    expressionPrevious: Expression,
    hasDoubleCols: bool)

  /** Console.Form(id): the posted value, or null when the form has none. */
  function FormValue(console: FieldConsole, id: string): (v: Option<string>)
    ensures v.Some? <==> id in console.form
    ensures v.Some? ==> v.value == console.form[id]
  {
    if id in console.form then Some(console.form[id]) else None
  }

  /** The shared-field overlay ApplySharedFieldInformation answers with. */
  datatype SharedFieldInfo = SharedFieldInfo(isShared: bool, isEnabled: bool, isHidden: bool, outputValue: Option<string>)

  /** The answers of the base-class members WriteCandidate and IsValid consult, which this model takes as given. */
  datatype BaseAnswers = BaseAnswers(isEnabled: bool, shared: SharedFieldInfo, baseValid: bool, isReadOnly: bool)

  /** MediakiwiJSEvent */
  datatype JsEvent = NoEvent | Change

  /** The MediakiwiField descriptor added to the API response (its VueType is always wimDate). */
  datatype ApiField = ApiField(
    event: JsEvent, title: string, mandatory: bool, value: Option<string>, expression: Expression,
    propertyName: string, propertyType: PropertyType, readOnly: bool)

  /** How a field is set up by its constructor and by the form that hosts it. */
  datatype FieldConfig = FieldConfig(
    id: string, title: string, isBluePrint: bool, isInitialLoad: bool, property: Option<BoundProperty>,
    showInheritedData: bool, autoPostBack: bool, overrideEditMode: bool, expression: Expression)

  /** What SetCandidate reads and writes: the field's own state and the data it is bound to. */
  datatype FieldState = FieldState(
    candidate: Option<DateTime>, outputText: Option<string>, inheritedOutputText: Option<string>,
    propertyValue: Option<DateTime>,                 // the bound DateTime or DateTime? property
    container: map<string, Option<string>>)          // the custom-data bag, by slot name

  function Slot(container: map<string, Option<string>>, key: string): Option<string> {
    if key in container then container[key] else None
  }

  /**
   * The candidate from the bound data of a field that is not a blueprint. There must be a bound
   * property, and a custom-data binding needs the field to name its slot; otherwise a null is
   * dereferenced. A DateTime property holding DateTime.MinValue gives no candidate.
   */
  function ReadBound(g: Globalization, property: Option<BoundProperty>, field: Option<Field>, s: FieldState): (r: Result<Option<DateTime>, Fault>)
    ensures r.Err? <==> property.None? || (property.value.propertyType == CustomDataProperty && field.None?)
    ensures r.Ok? && property.value.propertyType == DateTimeProperty ==>
              if s.propertyValue.Some? && s.propertyValue.value.ticks != MinValue.ticks
              then r.value == s.propertyValue else r.value.None?
    ensures r.Ok? && property.value.propertyType == NullableDateTimeProperty ==> r.value == s.propertyValue
    ensures r.Ok? && property.value.propertyType == CustomDataProperty ==>
              r.value == g.parseStored(Slot(s.container, field.value.property))
  {
    if property.None? then Err(NullReference)
    else
      match property.value.propertyType
      case CustomDataProperty =>
        if field.None? then Err(NullReference) else Ok(g.parseStored(Slot(s.container, field.value.property)))
      case DateTimeProperty =>
        // a boxed DateTime is never null; an unset one reads as its default, MinValue
        if s.propertyValue.Some? && s.propertyValue.value.ticks != MinValue.ticks then Ok(s.propertyValue) else Ok(None)
      case NullableDateTimeProperty => Ok(s.propertyValue)
  }

  /**
   * The candidate SetCandidate computes: on the initial load or outside edit mode from the blueprint
   * text or the bound data, otherwise from the submitted form value.
   */
  function CandidateFrom(cfg: FieldConfig, g: Globalization, field: Option<Field>, isEditMode: bool,
                         console: FieldConsole, s: FieldState): (r: Result<Option<DateTime>, Fault>)
    ensures isEditMode && !cfg.isInitialLoad ==>
              r == Ok(ReadSubmitted(g, FormValue(console, cfg.id), console.globalisationCulture, console.convertUtc))
    ensures (cfg.isInitialLoad || !isEditMode) && cfg.isBluePrint ==>
              r == ReadLegacyDate(g, if field.Some? then field.value.value else None)
    ensures (cfg.isInitialLoad || !isEditMode) && !cfg.isBluePrint ==> r == ReadBound(g, cfg.property, field, s)
    ensures r.Err? ==> (cfg.isInitialLoad || !isEditMode)
  {
    if cfg.isInitialLoad || !isEditMode then
      if cfg.isBluePrint then ReadLegacyDate(g, if field.Some? then field.value.value else None)
      else ReadBound(g, cfg.property, field, s)
    else
      Ok(ReadSubmitted(g, FormValue(console, cfg.id), console.globalisationCulture, console.convertUtc))
  }

  /** Only a writable property of a field that is not a blueprint receives the candidate. */
  predicate WritesBack(cfg: FieldConfig)
    ensures cfg.isBluePrint ==> !WritesBack(cfg)
    ensures WritesBack(cfg) ==> cfg.property.Some? && cfg.property.value.canWrite
    ensures !cfg.isBluePrint && cfg.property.Some? && cfg.property.value.canWrite ==> WritesBack(cfg)
  {
    !cfg.isBluePrint && cfg.property.Some? && cfg.property.value.canWrite
  }

  /** The state and whether SetCandidate returned normally (false: an exception escaped). */
  datatype Step = Step(state: FieldState, ok: bool)

  /** The text OutputText shows for a candidate. */
  function Display(g: Globalization, c: Option<DateTime>, dateFormat: string): (t: Option<string>)
    ensures t.None? <==> c.None?
    ensures c.Some? ==> t == Some(g.format(c.value, dateFormat))
  {
    if c.Some? then Some(g.format(c.value, dateFormat)) else None
  }

  /**
   * The effect of SetCandidate: the candidate is reset, read, written back, and OutputText derived
   * from it; the inherited value, when shown, is read with the same dual encoding.
   */
  function AfterSetCandidate(cfg: FieldConfig, g: Globalization, s: FieldState, field: Option<Field>,
                             isEditMode: bool, console: FieldConsole): (r: Step)
    ensures var read := CandidateFrom(cfg, g, field, isEditMode, console, s);
            r.ok <==> (read.Ok? && WriteBack(cfg, field, s.(candidate := read.value)).Some?
                       && !(ShowsInherited(cfg, field) && ReadLegacyDate(g, field.value.inheritedValue).Err?))
    ensures var read := CandidateFrom(cfg, g, field, isEditMode, console, s);
            read.Ok? && WriteBack(cfg, field, s.(candidate := read.value)).Some? ==>
              var w := WriteBack(cfg, field, s.(candidate := read.value)).value;
              && r.state.outputText == Display(g, read.value, console.dateFormat)
              && r.state.propertyValue == w.propertyValue && r.state.container == w.container
    ensures var read := CandidateFrom(cfg, g, field, isEditMode, console, s);
            read.Ok? && WriteBack(cfg, field, s.(candidate := read.value)).Some? ==>
              r == InheritedStep(cfg, g, field,
                                 WriteBack(cfg, field, s.(candidate := read.value)).value.(outputText := Display(g, read.value, console.dateFormat)),
                                 console.dateFormat)
    ensures CandidateFrom(cfg, g, field, isEditMode, console, s).Err? ==> r.state == s.(candidate := None)
    ensures var read := CandidateFrom(cfg, g, field, isEditMode, console, s);
            read.Ok? && WriteBack(cfg, field, s.(candidate := read.value)).None? ==> r.state == s.(candidate := read.value)
  {
    var s0 := s.(candidate := None);
    match CandidateFrom(cfg, g, field, isEditMode, console, s)
    case Err(_) => Step(s0, false)
    case Ok(c) =>
      var s1 := s0.(candidate := c);
      match WriteBack(cfg, field, s1)
      case None => Step(s1, false)
      case Some(s2) => InheritedStep(cfg, g, field, s2.(outputText := Display(g, c, console.dateFormat)), console.dateFormat)
  }

  /**
   * What SetCandidate promises: the candidate is the one read (none when reading throws), and the
   * read of a submitted value never throws; once the candidate is written back, OutputText shows it,
   * even when the inherited section then throws; only a write-back binding changes the bound data,
   * each property type in its own way; the inherited text changes only when it is shown.
   */
  lemma SetCandidateRules(cfg: FieldConfig, g: Globalization, s: FieldState, field: Option<Field>,
                          isEditMode: bool, console: FieldConsole)
    ensures var r := AfterSetCandidate(cfg, g, s, field, isEditMode, console);
            var read := CandidateFrom(cfg, g, field, isEditMode, console, s);
      && r.state.candidate == (if read.Ok? then read.value else None)
      && (r.ok ==> read.Ok?)
      && (isEditMode && !cfg.isInitialLoad ==> read.Ok?)
      && (read.Ok? && WriteBack(cfg, field, s.(candidate := read.value)).Some? ==>
            && (r.state.outputText.None? <==> r.state.candidate.None?)
            && (r.state.candidate.Some? ==> r.state.outputText == Some(g.format(r.state.candidate.value, console.dateFormat))))
      && (!WritesBack(cfg) ==> r.state.propertyValue == s.propertyValue && r.state.container == s.container)
      && (read.Ok? && WritesBack(cfg) && cfg.property.value.propertyType == DateTimeProperty ==>
            r.state.propertyValue == Some(if r.state.candidate.Some? then r.state.candidate.value else MinValue))
      && (read.Ok? && WritesBack(cfg) && cfg.property.value.propertyType == NullableDateTimeProperty ==>
            r.state.propertyValue == r.state.candidate)
      && (read.Ok? && WritesBack(cfg) && cfg.property.value.propertyType == CustomDataProperty && field.Some? ==>
            r.state.container == s.container[field.value.property := StoredText(r.state.candidate)])
      && (r.state.inheritedOutputText != s.inheritedOutputText ==> ShowsInherited(cfg, field))
      && (!r.ok && !ShowsInherited(cfg, field) ==> r.state.outputText == s.outputText)
  {
    var read := CandidateFrom(cfg, g, field, isEditMode, console, s);
    if read.Ok? {
      var s1 := s.(candidate := read.value);
      var w := WriteBack(cfg, field, s1);
      if w.Some? {
        var s3 := w.value.(outputText := Display(g, read.value, console.dateFormat));
        assert AfterSetCandidate(cfg, g, s, field, isEditMode, console) == InheritedStep(cfg, g, field, s3, console.dateFormat);
      }
    }
  }

  /**
   * The write-back of the candidate: a custom-data bag stores its tick text (null for none or MinValue),
   * a DateTime? property the candidate, a DateTime property the candidate or, for null, its default
   * MinValue. None when a custom-data binding has no field to name its slot.
   */
  function WriteBack(cfg: FieldConfig, field: Option<Field>, s: FieldState): (r: Option<FieldState>)
    ensures r.None? <==> WritesBack(cfg) && cfg.property.value.propertyType == CustomDataProperty && field.None?
    ensures r.Some? ==> r.value.(propertyValue := s.propertyValue, container := s.container) == s
    ensures r.Some? && !WritesBack(cfg) ==> r.value == s
    ensures r.Some? && WritesBack(cfg) && cfg.property.value.propertyType == DateTimeProperty ==>
              r.value.propertyValue == Some(if s.candidate.Some? then s.candidate.value else MinValue)
    ensures r.Some? && WritesBack(cfg) && cfg.property.value.propertyType == NullableDateTimeProperty ==>
              r.value.propertyValue == s.candidate
    ensures r.Some? && WritesBack(cfg) && cfg.property.value.propertyType == CustomDataProperty ==>
              field.Some? && r.value.container == s.container[field.value.property := StoredText(s.candidate)]
  {
    if !WritesBack(cfg) then Some(s)
    else
      match cfg.property.value.propertyType
      case CustomDataProperty =>
        if field.None? then None else Some(s.(container := s.container[field.value.property := StoredText(s.candidate)]))
      case DateTimeProperty => Some(s.(propertyValue := Some(if s.candidate.Some? then s.candidate.value else MinValue)))
      case NullableDateTimeProperty => Some(s.(propertyValue := s.candidate))
  }

  /** The inherited value is shown: the form asks for it and the field carries a non-empty one. */
  predicate ShowsInherited(cfg: FieldConfig, field: Option<Field>) {
    cfg.showInheritedData && field.Some? && !IsNullOrEmpty(field.value.inheritedValue)
  }

  /** The inherited-value display: read with the dual encoding when shown; a tick text that is not one throws. */
  function InheritedStep(cfg: FieldConfig, g: Globalization, field: Option<Field>, s: FieldState, dateFormat: string): (r: Step)
    ensures r.state.(inheritedOutputText := s.inheritedOutputText) == s
    ensures r.ok <==> !(ShowsInherited(cfg, field) && ReadLegacyDate(g, field.value.inheritedValue).Err?)
    ensures ShowsInherited(cfg, field) && ReadLegacyDate(g, field.value.inheritedValue).Ok?
            && ReadLegacyDate(g, field.value.inheritedValue).value.Some? ==>
              r.state.inheritedOutputText == Some(g.format(ReadLegacyDate(g, field.value.inheritedValue).value.value, dateFormat))
    ensures r.state != s ==>
              && cfg.showInheritedData && field.Some? && ReadLegacyDate(g, field.value.inheritedValue).Ok?
              && ReadLegacyDate(g, field.value.inheritedValue).value.Some?
              && r.state.inheritedOutputText == Some(g.format(ReadLegacyDate(g, field.value.inheritedValue).value.value, dateFormat))
  {
    if ShowsInherited(cfg, field) then
      match ReadLegacyDate(g, field.value.inheritedValue)
      case Err(_) => Step(s, false)
      case Ok(None) => Step(s, true)
      case Ok(Some(d)) => Step(s.(inheritedOutputText := Some(g.format(d, dateFormat))), true)
    else Step(s, true)
  }

  /**
   * The round trip the field promises: the Field WriteCandidate returns, fed to SetCandidate of a
   * blueprint field on the initial load or outside edit mode, gives back a candidate with the same
   * ticks (or none when there was none), and nothing throws.
   */
  lemma BlueprintRoundTrip(cfg: FieldConfig, g: Globalization, s: FieldState, c: Option<DateTime>,
                           isEditMode: bool, console: FieldConsole)
    requires cfg.isBluePrint && (cfg.isInitialLoad || !isEditMode)
    ensures var r := AfterSetCandidate(cfg, g, s, Some(Field(cfg.id, TickText(c), None)), isEditMode, console);
            r.ok && (r.state.candidate.None? <==> c.None?)
            && (c.Some? ==> r.state.candidate.value.ticks == c.value.ticks)
  {
    TickTextRoundTrip(g, c);
  }

  /** The overlay a shared field applies to the field's own enabled, cloaked and output state. */
  datatype Effective = Effective(enabled: bool, cloaked: bool, outputText: Option<string>)

  function Overlay(enabled: bool, cloaked: bool, outputText: Option<string>, shared: SharedFieldInfo): (e: Effective)
    ensures !shared.isShared ==> e == Effective(enabled, cloaked, outputText)
    ensures shared.isShared ==> e.enabled == shared.isEnabled
    ensures e.cloaked <==> cloaked || (shared.isShared && shared.isHidden)
    ensures e.outputText != outputText ==> shared.isShared && e.outputText == shared.outputValue
    ensures shared.isShared && !IsNullOrWhiteSpace(shared.outputValue) ==> e.outputText == shared.outputValue
    ensures IsNullOrWhiteSpace(shared.outputValue) ==> e.outputText == outputText
  {
    if !shared.isShared then Effective(enabled, cloaked, outputText)
    else
      Effective(shared.isEnabled,
                if !cloaked && shared.isHidden then true else cloaked,
                if !IsNullOrWhiteSpace(shared.outputValue) then shared.outputValue else outputText)
  }

  /** The validity rule of IsValid. */
  function Validity(isSaveMode: bool, baseValid: bool, mandatory: bool, hasCandidate: bool): (v: bool)
    ensures v <==> !isSaveMode || (baseValid && (!mandatory || hasCandidate))
  {
    if isSaveMode && !baseValid then false
    else if isSaveMode && mandatory then hasCandidate
    else true
  }

  /** What WriteCandidate appends to the visible markup. */
  function VisibleMarkup(cfg: FieldConfig, console: FieldConsole, editable: bool, cloaked: bool, outputText: Option<string>,
                         valid: bool, element: InputElement): (m: seq<Token>)
    ensures !editable ==> m == [SimpleText(outputText)]
    ensures editable && cloaked ==> m == []
    ensures editable && !cloaked ==> Input(element) in m
  {
    if !editable then [SimpleText(outputText)]
    else if cloaked then []
    else
      var m := Wrapper(console.expressionPrevious, cfg.expression, cfg.showInheritedData, cfg.id,
                       cfg.expression == FullWidth && console.hasDoubleCols, valid, element);
      WrapperShape(console.expressionPrevious, cfg.expression, cfg.showInheritedData, cfg.id,
                   cfg.expression == FullWidth && console.hasDoubleCols, valid, element);
      m
  }

  /** The API descriptor WriteCandidate adds. */
  function Descriptor(cfg: FieldConfig, mandatory: bool, outputText: Option<string>, readOnly: bool): (f: ApiField)
    ensures f.event == Change <==> cfg.autoPostBack
    ensures f.value == outputText && f.propertyName == cfg.id && f.expression == cfg.expression
    ensures cfg.property.None? ==> f.propertyType == DateTimeProperty
  {
    ApiField(if cfg.autoPostBack then Change else NoEvent, cfg.title, mandatory, outputText, cfg.expression, cfg.id,
             if cfg.property.None? then DateTimeProperty else cfg.property.value.propertyType, readOnly)
  }

  /** The builder a form renders into: visible markup, the cloaked channel and the API response's fields. */
  class ControlBuilder {
    var markup: seq<Token>
    var cloaked: seq<Token>
    var fields: seq<ApiField>

    constructor ()
      ensures markup == [] && cloaked == [] && fields == []
    {
      markup, cloaked, fields := [], [], [];
    }

    method Append(t: Token)
      modifies this
      ensures markup == old(markup) + [t] && cloaked == old(cloaked) && fields == old(fields)
    {
      markup := markup + [t];
    }

    method AppendCloaked(t: Token)
      modifies this
      ensures cloaked == old(cloaked) + [t] && markup == old(markup) && fields == old(fields)
    {
      cloaked := cloaked + [t];
    }

    method AddField(f: ApiField)
      modifies this
      ensures fields == old(fields) + [f] && markup == old(markup) && cloaked == old(cloaked)
    {
      fields := fields + [f];
    }
  }

  /** The wrapper section of WriteCandidate: row balancing, the label cell and the data cell with the control. */
  method AppendWrapper(build: ControlBuilder, prev: Expression, expr: Expression, showInheritedData: bool, id: string,
                       colspan: bool, valid: bool, element: InputElement)
    modifies build
    ensures build.markup == old(build.markup) + Wrapper(prev, expr, showInheritedData, id, colspan, valid, element)
    ensures build.cloaked == old(build.cloaked) && build.fields == old(build.fields)
  {
    ghost var m0 := build.markup;
    ghost var lead := RowLead(prev, expr, showInheritedData);
    ghost var cells := CellTokens(id, colspan, valid, expr == FullWidth, element);
    AppendRowLead(build, prev, expr, showInheritedData);
    AppendCells(build, id, colspan, valid, expr == FullWidth, element);
    AppendRowTail(build, expr);
    assert build.markup == m0 + lead + cells + RowTail(expr);
  }

  /** A FullWidth or Right field closes its row. */
  method AppendRowTail(build: ControlBuilder, expr: Expression)
    modifies build
    ensures build.markup == old(build.markup) + RowTail(expr)
    ensures build.cloaked == old(build.cloaked) && build.fields == old(build.fields)
  {
    if expr == FullWidth || expr == Right {
      build.Append(CloseRow);
    }
  }

  /** The label cell and the data cell holding the control. */
  method AppendCells(build: ControlBuilder, id: string, colspan: bool, valid: bool, wide: bool, element: InputElement)
    modifies build
    ensures build.markup == old(build.markup) + CellTokens(id, colspan, valid, wide, element)
    ensures build.cloaked == old(build.cloaked) && build.fields == old(build.fields)
  {
    build.Append(Label(id));
    build.Append(OpenCell(colspan, valid));
    build.Append(OpenBox(wide));
    build.Append(Input(element));
    build.Append(CloseBoxAndCell);
  }

  /** The filler and row opening that precede the label cell. */
  method AppendRowLead(build: ControlBuilder, prev: Expression, expr: Expression, showInheritedData: bool)
    modifies build
    ensures build.markup == old(build.markup) + RowLead(prev, expr, showInheritedData)
    ensures build.cloaked == old(build.cloaked) && build.fields == old(build.fields)
  {
    if showInheritedData {
      build.Append(Translation);
    } else {
      ghost var m0 := build.markup;
      if prev == Left && (expr == FullWidth || expr == Left) {
        build.Append(FillerCloseRow);
      }
      if (prev == FullWidth || prev == Right) && expr == Right {
        build.Append(FillerOpenRow);
      }
      if expr == FullWidth || expr == Left {
        build.Append(OpenRow);
      }
      assert build.markup == m0 + RowLead(prev, expr, false) by {
        match prev
        case Left => assert prev != FullWidth && prev != Right;
        case FullWidth =>
        case Right =>
      }
    }
  }

  class DateAttribute {
    const config: FieldConfig
    const g: Globalization

    var candidate: Option<DateTime>
    var outputText: Option<string>
    var inheritedOutputText: Option<string>
    var mandatory: bool
    var isCloaked: bool
    var propertyValue: Option<DateTime>
    var container: map<string, Option<string>>

    function State(): FieldState
      reads this
    {
      FieldState(candidate, outputText, inheritedOutputText, propertyValue, container)
    }

    /** A date field with its title and mandatory flag, bound to the given data. */
    constructor (config: FieldConfig, g: Globalization, mandatory: bool,
                 propertyValue: Option<DateTime>, container: map<string, Option<string>>)
      ensures this.config == config && this.g == g && this.mandatory == mandatory
      ensures State() == FieldState(None, None, None, propertyValue, container)
      ensures !isCloaked
    {
      this.config, this.g := config, g;
      this.mandatory := mandatory;
      candidate, outputText, inheritedOutputText := None, None, None;
      isCloaked := false;
      this.propertyValue, this.container := propertyValue, container;
    }

    /** SetCandidate(field, isEditMode); ok is false when an exception escapes it. */
    method SetCandidate(field: Option<Field>, isEditMode: bool, console: FieldConsole) returns (ok: bool)
      modifies this
      ensures Step(State(), ok) == AfterSetCandidate(config, g, old(State()), field, isEditMode, console)
      ensures mandatory == old(mandatory) && isCloaked == old(isCloaked)
    {
      var before := State();
      candidate := None;
      var read := CandidateFrom(config, g, field, isEditMode, console, before);
      if read.Err? {
        return false;
      }
      candidate := read.value;
      ok := WriteBackCandidate(field);
      if !ok {
        return;
      }
      outputText := Display(g, candidate, console.dateFormat);
      ok := ShowInherited(field, console.dateFormat);
    }

    /** The write-back section of SetCandidate. */
    method WriteBackCandidate(field: Option<Field>) returns (ok: bool)
      modifies this
      ensures ok <==> WriteBack(config, field, old(State())).Some?
      ensures ok ==> State() == WriteBack(config, field, old(State())).value
      ensures !ok ==> State() == old(State())
      ensures mandatory == old(mandatory) && isCloaked == old(isCloaked)
    {
      if WritesBack(config) {
        match config.property.value.propertyType
        case CustomDataProperty =>
          if field.None? {
            return false;
          }
          container := container[field.value.property := StoredText(candidate)];
        case DateTimeProperty =>
          propertyValue := Some(if candidate.Some? then candidate.value else MinValue);
        case NullableDateTimeProperty =>
          propertyValue := candidate;
      }
      return true;
    }

    /** The inherited-content section of SetCandidate. */
    method ShowInherited(field: Option<Field>, dateFormat: string) returns (ok: bool)
      modifies this
      ensures Step(State(), ok) == InheritedStep(config, g, field, old(State()), dateFormat)
      ensures mandatory == old(mandatory) && isCloaked == old(isCloaked)
    {
      if config.showInheritedData && field.Some? && !IsNullOrEmpty(field.value.inheritedValue) {
        var inherited := ReadLegacyDate(g, field.value.inheritedValue);
        if inherited.Err? {
          return false;
        }
        if inherited.value.Some? {
          inheritedOutputText := Some(g.format(inherited.value.value, dateFormat));
        }
      }
      return true;
    }

    /**
     * IsValid(isRequired): records the mandatory flag; validity is only enforced in save mode. Reading
     * the save mode dereferences the current list instance, so without one the call throws.
     */
    method IsValid(isRequired: bool, console: FieldConsole, baseValid: bool) returns (r: Result<bool, Fault>)
      modifies this
      ensures mandatory == isRequired
      ensures State() == old(State()) && isCloaked == old(isCloaked)
      ensures r.Err? <==> console.saveMode.None?
      ensures r.Err? ==> r.error == NullReference
      ensures console.saveMode == Some(false) ==> r == Ok(true)
      ensures console.saveMode == Some(true) && !baseValid ==> r == Ok(false)
      ensures console.saveMode == Some(true) && baseValid ==> r == Ok(!isRequired || candidate.Some?)
      ensures r.Ok? ==> r.value == Validity(console.saveMode.value, baseValid, isRequired, candidate.Some?)
    {
      mandatory := isRequired;
      if console.saveMode.None? {
        return Err(NullReference);
      }
      if console.saveMode.value {
        if !baseValid {
          return Ok(false);
        }
        if mandatory {
          return Ok(candidate.Some?);
        }
      }
      return Ok(true);
    }

    /**
     * WriteCandidate(build, isEditMode, isRequired, isCloaked): applies the edit-mode override and the
     * shared-field overlay, renders an input (visible or cloaked) or read-only text, adds one API field
     * and returns the candidate as its tick text. An editable field without a current list instance
     * throws in IsValid before anything is rendered or added.
     */
    method WriteCandidate(build: ControlBuilder, isEditMode: bool, isRequired: bool, cloak: bool,
                          console: FieldConsole, base: BaseAnswers) returns (r: Result<Field, Fault>)
      modifies this, build
      ensures candidate == old(candidate) && propertyValue == old(propertyValue)
      ensures container == old(container) && inheritedOutputText == old(inheritedOutputText)
      ensures mandatory == isRequired
      ensures var e := Overlay(base.isEnabled, cloak, old(outputText), base.shared);
              isCloaked == e.cloaked && outputText == e.outputText
      ensures var e := Overlay(base.isEnabled, cloak, old(outputText), base.shared);
              r.Err? <==> isEditMode && !config.overrideEditMode && e.enabled && console.saveMode.None?
      ensures r.Err? ==> r.error == NullReference
      ensures r.Err? ==> build.markup == old(build.markup) && build.cloaked == old(build.cloaked) && build.fields == old(build.fields)
      ensures r.Ok? ==>
              var e := Overlay(base.isEnabled, cloak, old(outputText), base.shared);
              var editable := isEditMode && !config.overrideEditMode && e.enabled;
              var valid := Validity(console.saveMode == Some(true), base.baseValid, isRequired, candidate.Some?);
              var element := InputElement(config.id, if candidate.Some? then g.format(candidate.value, console.dateFormat) else "",
                                          !valid, config.autoPostBack, e.cloaked);
              && build.markup == old(build.markup) + VisibleMarkup(config, console, editable, e.cloaked, e.outputText, valid, element)
              && build.cloaked == old(build.cloaked) + (if editable && e.cloaked then [Input(element)] else [])
              && build.fields == old(build.fields) + [Descriptor(config, isRequired, e.outputText, base.isReadOnly)]
              && r.value == Field(config.id, TickText(candidate), None)
    {
      isCloaked := cloak;
      mandatory := isRequired;
      var edit := isEditMode;
      if config.overrideEditMode {
        edit := false;
      }
      var isEnabled := ApplySharedOverlay(base.isEnabled, base.shared);
      ghost var e := Overlay(base.isEnabled, cloak, old(outputText), base.shared);
      assert isEnabled == e.enabled && isCloaked == e.cloaked && outputText == e.outputText;
      r := Emit(build, edit && isEnabled, console, base);
    }

    /**
     * The output section of WriteCandidate: the control or the text, the API field and the returned
     * Field; an editable field without a current list instance throws before any of them.
     */
    method Emit(build: ControlBuilder, editable: bool, console: FieldConsole, base: BaseAnswers) returns (r: Result<Field, Fault>)
      modifies this, build
      ensures State() == old(State()) && mandatory == old(mandatory) && isCloaked == old(isCloaked)
      ensures r.Err? <==> editable && console.saveMode.None?
      ensures r.Err? ==> r.error == NullReference
      ensures r.Err? ==> build.markup == old(build.markup) && build.cloaked == old(build.cloaked) && build.fields == old(build.fields)
      ensures r.Ok? ==>
              var valid := Validity(console.saveMode == Some(true), base.baseValid, mandatory, candidate.Some?);
              var element := InputElement(config.id, if candidate.Some? then g.format(candidate.value, console.dateFormat) else "",
                                          !valid, config.autoPostBack, isCloaked);
              && build.markup == old(build.markup) + VisibleMarkup(config, console, editable, isCloaked, outputText, valid, element)
              && build.cloaked == old(build.cloaked) + (if editable && isCloaked then [Input(element)] else [])
              && build.fields == old(build.fields) + [Descriptor(config, mandatory, outputText, base.isReadOnly)]
              && r.value == Field(config.id, TickText(candidate), None)
    {
      var rendered := RenderControl(build, editable, console, base.baseValid);
      if !rendered {
        return Err(NullReference);
      }
      build.AddField(Descriptor(config, mandatory, outputText, base.isReadOnly));
      r := Ok(Field(config.id, TickText(candidate), None));
    }

    /**
     * The rendering section of WriteCandidate: an input (visible or cloaked) when editable, else
     * read-only text. The flag is false when IsValid throws, and then nothing is rendered.
     */
    method RenderControl(build: ControlBuilder, editable: bool, console: FieldConsole, baseValid: bool) returns (ok: bool)
      modifies this, build
      ensures State() == old(State()) && mandatory == old(mandatory) && isCloaked == old(isCloaked)
      ensures ok <==> !editable || console.saveMode.Some?
      ensures !ok ==> build.markup == old(build.markup) && build.cloaked == old(build.cloaked)
      ensures ok ==>
              var valid := Validity(console.saveMode == Some(true), baseValid, mandatory, candidate.Some?);
              var element := InputElement(config.id, if candidate.Some? then g.format(candidate.value, console.dateFormat) else "",
                                          !valid, config.autoPostBack, isCloaked);
              && build.markup == old(build.markup) + VisibleMarkup(config, console, editable, isCloaked, outputText, valid, element)
              && build.cloaked == old(build.cloaked) + (if editable && isCloaked then [Input(element)] else [])
      ensures build.fields == old(build.fields)
    {
      if editable {
        var valid := IsValid(mandatory, console, baseValid);
        if valid.Err? {
          return false;
        }
        var element := InputElement(config.id, if candidate.Some? then g.format(candidate.value, console.dateFormat) else "",
                                    !valid.value, config.autoPostBack, isCloaked);
        if isCloaked {
          build.AppendCloaked(Input(element));
        } else {
          var validCell := IsValid(mandatory, console, baseValid);
          AppendWrapper(build, console.expressionPrevious, config.expression, config.showInheritedData, config.id,
                        config.expression == FullWidth && console.hasDoubleCols, validCell.value, element);
        }
      } else {
        build.Append(SimpleText(outputText));
      }
      return true;
    }

    /** The shared-field section of WriteCandidate: a shared field's overlay replaces the local state. */
    method ApplySharedOverlay(enabled: bool, shared: SharedFieldInfo) returns (isEnabled: bool)
      modifies this
      ensures var e := Overlay(enabled, old(isCloaked), old(outputText), shared);
              isEnabled == e.enabled && isCloaked == e.cloaked && outputText == e.outputText
      ensures candidate == old(candidate) && propertyValue == old(propertyValue) && mandatory == old(mandatory)
      ensures container == old(container) && inheritedOutputText == old(inheritedOutputText)
    {
      isEnabled := enabled;
      if shared.isShared {
        isEnabled := shared.isEnabled;
        if !isCloaked && shared.isHidden {
          isCloaked := shared.isHidden;
        }
        if !IsNullOrWhiteSpace(shared.outputValue) {
          outputText := shared.outputValue;
        }
      }
    }
  }
}
