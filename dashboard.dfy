/**
 * The dashboard directive's own helpers: attribute parsing, the options the
 * link function puts on the scope, widget configuration lookup, the search
 * for the first column that can hold widgets, and the defaults the model
 * watcher fills in.
 */
module Dashboard {
  import opened LayoutTree
  import opened Structures

  // ---------------------------------------------------------------------------
  // stringToBoolean

  function LowerChar(c: char): char
  {
    if 'A' <= c <= 'Z' then (c as int + 32) as char else c
  }

  function UpperChar(c: char): char
  {
    if 'a' <= c <= 'z' then (c as int - 32) as char else c
  }

  /** `toLowerCase`, on the letters A to Z. */
  function Lower(s: string): (r: string)
    ensures |r| == |s|
    ensures forall i | 0 <= i < |s| :: r[i] == LowerChar(s[i])
  {
    if s == [] then [] else [LowerChar(s[0])] + Lower(s[1..])
  }

  const TrueWords: set<string> := {"true", "yes", "1"}
  const FalseWords: set<string> := {"false", "no", "0"}

  /**
   * `stringToBoolean(string)`: an absent attribute is false; otherwise the
   * attribute, lower-cased, is matched against the true and the false words,
   * and any other string is true exactly when it is not empty.
   */
  function StringToBoolean(s: Option<string>): (r: bool)
    ensures s.None? ==> !r
    ensures s.Some? && Lower(s.value) in TrueWords ==> r
    ensures s.Some? && Lower(s.value) in FalseWords ==> !r
    ensures s.Some? && Lower(s.value) !in TrueWords && Lower(s.value) !in FalseWords ==> (r <==> s.value != "")
  {
    match s
    case None => false
    case Some(v) =>
      var l := Lower(v);
      if l == "true" || l == "yes" || l == "1" then true
      else if l == "false" || l == "no" || l == "0" then false
      else v != ""
  }

  /** `s` spells the lower-case word `w`, each letter in either case. */
  predicate SpelledInAnyCase(s: string, w: string)
  {
    |s| == |w| && forall i | 0 <= i < |s| :: s[i] == w[i] || s[i] == UpperChar(w[i])
  }

  predicate LowerCaseWord(w: string)
  {
    forall i | 0 <= i < |w| :: !('A' <= w[i] <= 'Z')
  }

  lemma LowerOfSpelling(s: string, w: string)
    requires LowerCaseWord(w) && SpelledInAnyCase(s, w)
    ensures Lower(s) == w
  {
    forall i | 0 <= i < |s|
      ensures Lower(s)[i] == w[i]
    {
      assert !('A' <= w[i] <= 'Z');
    }
  }

  /** "true", "yes" and "1" in any letter case are true. */
  lemma TrueInAnyCase(s: string, w: string)
    requires w in TrueWords && SpelledInAnyCase(s, w)
    ensures StringToBoolean(Some(s))
  {
    assert LowerCaseWord(w);
    LowerOfSpelling(s, w);
  }

  /** "false", "no" and "0" in any letter case are false. */
  lemma FalseInAnyCase(s: string, w: string)
    requires w in FalseWords && SpelledInAnyCase(s, w)
    ensures !StringToBoolean(Some(s))
  {
    assert LowerCaseWord(w);
    LowerOfSpelling(s, w);
  }

  /** A present attribute is false exactly when it is a false word, in any case, or empty. */
  lemma FalseAttribute(s: string)
    ensures !StringToBoolean(Some(s)) <==> Lower(s) in FalseWords || s == ""
  {
    if s == "" {
      assert Lower(s) == "";
    }
  }

  // ---------------------------------------------------------------------------
  // options, in link

  /** The directive's attributes, each absent or a string. */
  datatype Attributes = Attributes(name: Option<string>, editable: Option<string>,
                                   maximizable: Option<string>, collapsible: Option<string>)

  datatype Options = Options(name: Option<string>, editable: bool, maximizable: bool, collapsible: bool)

  /** The options `link` puts on the scope: `editable` is true unless the attribute is given. */
  function LinkOptions(attr: Attributes): (o: Options)
    ensures o.name == attr.name
    ensures o.maximizable == StringToBoolean(attr.maximizable)
    ensures o.collapsible == StringToBoolean(attr.collapsible)
    ensures attr.editable.None? ==> o.editable
    ensures attr.editable.Some? ==> o.editable == StringToBoolean(attr.editable)
  {
    var options := Options(attr.name, true, StringToBoolean(attr.maximizable), StringToBoolean(attr.collapsible));
    if attr.editable.Some? then options.(editable := StringToBoolean(attr.editable)) else options
  }

  /** A dashboard is read-only only when `editable` is given as a false word or as the empty string;
      maximizing and collapsing are off unless asked for. */
  lemma EditableUnlessDisabled(attr: Attributes)
    ensures !LinkOptions(attr).editable <==>
            attr.editable.Some? && (Lower(attr.editable.value) in FalseWords || attr.editable.value == "")
    ensures attr.maximizable.None? ==> !LinkOptions(attr).maximizable
    ensures attr.collapsible.None? ==> !LinkOptions(attr).collapsible
  {
    if attr.editable.Some? {
      FalseAttribute(attr.editable.value);
    }
  }

  // ---------------------------------------------------------------------------
  // createConfiguration

  /** A widget configuration object, as opaque key-value data. */
  type Config = map<string, string>

  /** A registered widget type; `config` is `None` when it is absent or falsy. */
  datatype WidgetType = WidgetType(config: Option<Config>)

  /** `createConfiguration(type)`: a copy of the registered type's configuration,
      or an empty configuration when the type has none. */
  function CreateConfiguration(widgets: map<string, WidgetType>, typ: string): (cfg: Config)
    requires typ in widgets
    ensures widgets[typ].config.Some? ==> cfg == widgets[typ].config.value
    ensures widgets[typ].config.None? ==> cfg == map[]
  {
    var config := widgets[typ].config;
    if config.Some? then config.value else map[]
  }

  // ---------------------------------------------------------------------------
  // findFirstWidgetColumn

  /** The columns of the top-level rows, row after row. */
  function TopColumns(rows: seq<Row>): seq<Column>
  {
    if rows == [] then [] else rows[0].columns + TopColumns(rows[1..])
  }

  /** The test `findFirstWidgetColumn` uses: a column whose `rows` is falsy, undefined or null. */
  predicate HoldsWidgets(c: Column)
  {
    !c.nested.Rows?
  }

  predicate NoWidgetColumn(s: seq<Column>)
  {
    forall c | c in s :: !HoldsWidgets(c)
  }

  /** `c` is the first column of `s` that holds widgets. */
  predicate FirstWidgetColumn(s: seq<Column>, c: Column)
  {
    exists k | 0 <= k < |s| :: s[k] == c && HoldsWidgets(c) && NoWidgetColumn(s[..k])
  }

  /** The search stops at `cs[j]`, the first column that holds widgets after `seen`. */
  lemma FoundFirst(seen: seq<Column>, cs: seq<Column>, j: nat, later: seq<Column>)
    requires j < |cs| && HoldsWidgets(cs[j])
    requires NoWidgetColumn(seen) && NoWidgetColumn(cs[..j])
    ensures FirstWidgetColumn(seen + cs + later, cs[j])
  {
    var top := seen + cs + later;
    assert top[|seen| + j] == cs[j];
    assert top[..|seen| + j] == seen + cs[..j];
  }

  /** The inner loop of `findFirstWidgetColumn`: the index of the first column of
      the row that holds widgets, or the row's length when there is none. */
  method FirstWidgetIndex(cs: seq<Column>) returns (j: nat)
    ensures j <= |cs| && NoWidgetColumn(cs[..j])
    ensures j < |cs| ==> HoldsWidgets(cs[j])
  {
    j := 0;
    while j < |cs|
      invariant 0 <= j <= |cs|
      invariant NoWidgetColumn(cs[..j])
    {
      if HoldsWidgets(cs[j]) {
        break;
      }
      assert cs[..j + 1] == cs[..j] + [cs[j]];
      j := j + 1;
    }
  }

  /**
   * `findFirstWidgetColumn(model)`: null when `model.rows` is not an array;
   * otherwise the first column, row by row, among the top-level rows whose
   * `rows` is falsy, or null when there is none. Nested rows are not searched.
   */
  method FindFirstWidgetColumn(model: Model) returns (column: Column?)
    ensures !model.rows.Rows? ==> column == null
    ensures model.rows.Rows? ==> (column == null <==> NoWidgetColumn(TopColumns(model.rows.rows)))
    ensures column != null ==> model.rows.Rows? && FirstWidgetColumn(TopColumns(model.rows.rows), column)
  {
    column := null;
    if !model.rows.Rows? {
      // the directive logs that the model has no rows
      return null;
    }
    var rows := model.rows.rows;
    ghost var seen: seq<Column> := [];
    var i := 0;
    while i < |rows|
      invariant 0 <= i <= |rows| && column == null
      invariant TopColumns(rows) == seen + TopColumns(rows[i..])
      invariant NoWidgetColumn(seen)
    {
      var cs := rows[i].columns;
      assert rows[i..][1..] == rows[i + 1..];
      assert TopColumns(rows[i..]) == cs + TopColumns(rows[i + 1..]);
      assert TopColumns(rows) == seen + cs + TopColumns(rows[i + 1..]);
      var j := FirstWidgetIndex(cs);
      if j < |cs| {
        column := cs[j];
        FoundFirst(seen, cs, j, TopColumns(rows[i + 1..]));
        break;
      }
      assert cs[..j] == cs;
      seen := seen + cs;
      i := i + 1;
    }
    if column == null {
      assert TopColumns(rows[i..]) == [];
    }
  }

  // ---------------------------------------------------------------------------
  // The model watcher's defaults

  /** A truthy string: present and not empty. */
  predicate Present(s: Option<string>)
  {
    s.Some? && s.value != ""
  }

  /** A string property after the watcher's defaulting: kept when truthy, `fallback` otherwise. */
  function Defaulted(s: Option<string>, fallback: string): (r: Option<string>)
    ensures Present(s) ==> r == s
    ensures !Present(s) ==> r == Some(fallback)
  {
    if Present(s) then s else Some(fallback)
  }

  const DefaultTitle: string := "Dashboard"

  /** The default title template, below the directive's template path. */
  function TitleTemplate(templatePath: string): (url: string)
    ensures |url| > |templatePath| && url[..|templatePath|] == templatePath
    ensures url[|templatePath|..] == "dashboard-title.html"
  {
    templatePath + "dashboard-title.html"
  }

  /** The named structure exists in the registry. */
  predicate Registered(registry: map<string, Structure>, name: Option<string>)
  {
    name.Some? && name.value in registry
  }

  /**
   * What the `ngmModel` watcher does to the model: a model that is missing,
   * or has no rows, takes the rows of the structure named by the `structure`
   * attribute (a missing model becomes a copy of that structure) and records
   * that name; then a falsy title becomes 'Dashboard' and a falsy title
   * template the default one. Returns the model put on the scope, or null
   * when there is none.
   */
  method ApplyModelDefaults(scopeModel: Model?, structureName: Option<string>,
                            registry: map<string, Structure>, templatePath: string)
    returns (model: Model?)
    modifies scopeModel
    ensures model == null <==> scopeModel == null && !Registered(registry, structureName)
    ensures scopeModel != null ==> model == scopeModel
    ensures scopeModel == null && model != null ==> fresh(model)
    // rows taken from the structure
    ensures model != null && (scopeModel == null || !old(scopeModel.rows).Rows?) && Registered(registry, structureName) ==>
              ForestRows(RowsOf(model.rows)) &&
              SkeletonNested(model.rows) == StripNested(registry[structureName.value].rows) &&
              Copied(PreorderNested(model.rows), ValuePreorderNested(registry[structureName.value].rows)) &&
              (forall c | c in PreorderNested(model.rows) :: fresh(c)) &&
              model.structure == structureName
    // rows kept
    ensures scopeModel != null && (old(scopeModel.rows).Rows? || !Registered(registry, structureName)) ==>
              model.rows == old(scopeModel.rows) && model.structure == old(scopeModel.structure)
    // title and title template
    ensures scopeModel != null ==>
              model.title == Defaulted(old(scopeModel.title), DefaultTitle) &&
              model.titleTemplateUrl == Defaulted(old(scopeModel.titleTemplateUrl), TitleTemplate(templatePath))
    ensures scopeModel == null && model != null ==>
              model.title == Defaulted(registry[structureName.value].title, DefaultTitle) &&
              model.titleTemplateUrl == Defaulted(registry[structureName.value].titleTemplateUrl, TitleTemplate(templatePath))
  {
    model := scopeModel;
    if model == null || !model.rows.Rows? {
      if Registered(registry, structureName) {
        var structure := registry[structureName.value];
        var rows := CopyNested(structure.rows);
        assert Copied(PreorderNested(rows), ValuePreorderNested(structure.rows));
        if model != null {
          model.rows := rows;
          assert Copied(PreorderNested(rows), ValuePreorderNested(structure.rows));
        } else {
          model := new Model(rows, structure.title, structure.titleTemplateUrl, None);
          assert Copied(PreorderNested(rows), ValuePreorderNested(structure.rows));
        }
        model.structure := structureName;
        assert Copied(PreorderNested(rows), ValuePreorderNested(structure.rows));
      }
      // otherwise the directive logs that the structure could not be found
    }
    if model != null {
      if !Present(model.title) {
        model.title := Some(DefaultTitle);
      }
      if !Present(model.titleTemplateUrl) {
        model.titleTemplateUrl := Some(TitleTemplate(templatePath));
      }
    }
    // otherwise the directive logs that no model could be found or created
  }
}
