/**
 * The multi-page formatting-specification editor: how it builds the specification from the
 * file (or a skeleton when the file is empty), keeps the example page and the specification's
 * example in step, reformats the example with the current rules, and combines the three dirty
 * flags for saving.
 */
module FormattingEditor {
  import opened Wrappers
  import opened ListOps
  import opened TextOps
  import opened SpecModel
  import opened RuleEditing
  import opened OptionEditing

  const OpenTag := "<language>"
  const CloseTag := "</language>"
  const EmptyLanguageMessage := "Language ID must be non-empty"

  /** The SWT key code of Enter and the modifier bits SWT.CTRL (1 << 18) and SWT.COMMAND (1 << 22). */
  const EnterKey := 13
  const CtrlMask: bv32 := 0x0004_0000
  const CommandMask: bv32 := 0x0040_0000

  /** A character of the regular-expression class [a-zA-Z0-9_]. */
  predicate IsWordChar(ch: char) {
    IsLetter(ch) || IsDigit(ch) || ch == '_'
  }

  predicate AllWordChars(s: string) {
    forall i :: 0 <= i < |s| ==> IsWordChar(s[i])
  }

  /** The length of the longest prefix of `s` made of word characters. */
  function WordRun(s: string): (n: nat)
    ensures n <= |s| && AllWordChars(s[..n])
    ensures n < |s| ==> !IsWordChar(s[n])
  {
    if |s| == 0 || !IsWordChar(s[0]) then 0
    else
      var n := 1 + WordRun(s[1..]);
      assert forall i :: 1 <= i < n ==> s[..n][i] == s[1..][..n - 1][i - 1];
      n
  }

  /**
   * The match of <language>([a-zA-Z0-9_]+)</language> that starts at `p`, as its group 1. The
   * group is greedy and '<' is not a word character, so the only candidate is the longest run of
   * word characters after the opening tag.
   */
  function MatchAt(text: string, p: nat): (r: Option<string>)
    ensures r.Some? ==> OccursAt(text, OpenTag, p) && |r.value| > 0 && AllWordChars(r.value)
  {
    if OccursAt(text, OpenTag, p) then
      var rest := text[p + |OpenTag|..];
      var n := WordRun(rest);
      if n > 0 && OccursAt(rest, CloseTag, n) then Some(rest[..n]) else None
    else None
  }

  /** The regular expression matches at `p` with group 1 equal to `name`. */
  predicate IsMatch(text: string, p: nat, name: string) {
    |name| > 0 && AllWordChars(name) && OccursAt(text, OpenTag + name + CloseTag, p)
  }

  /** MatchAt finds exactly the matches the regular expression admits at `p`. */
  lemma MatchAtIff(text: string, p: nat, name: string)
    ensures MatchAt(text, p) == Some(name) <==> IsMatch(text, p, name)
  {
    if MatchAt(text, p) == Some(name) {
      MatchAtSound(text, p, name);
    }
    if IsMatch(text, p, name) {
      MatchAtComplete(text, p, name);
    }
  }

  /** What the scanner reports is a match of the pattern. */
  lemma MatchAtSound(text: string, p: nat, name: string)
    requires MatchAt(text, p) == Some(name)
    ensures IsMatch(text, p, name)
  {
    var whole := OpenTag + name + CloseTag;
    var rest := text[p + |OpenTag|..];
    assert rest[..|name|] == name;
    assert OccursAt(rest, CloseTag, |name|);
    assert p + |whole| <= |text|;
    forall k | 0 <= k < |whole|
      ensures text[p..p + |whole|][k] == whole[k]
    {
      if k < |OpenTag| {
        assert text[p..p + |OpenTag|][k] == OpenTag[k];
      } else if k < |OpenTag| + |name| {
        assert rest[..|name|][k - |OpenTag|] == name[k - |OpenTag|];
      } else {
        assert rest[|name|..|name| + |CloseTag|][k - |OpenTag| - |name|] == CloseTag[k - |OpenTag| - |name|];
      }
    }
  }

  /** Every match of the pattern at p is what the scanner reports there. */
  lemma MatchAtComplete(text: string, p: nat, name: string)
    requires IsMatch(text, p, name)
    ensures MatchAt(text, p) == Some(name)
  {
    var whole := OpenTag + name + CloseTag;
    assert text[p..p + |whole|] == whole;
    forall k | 0 <= k < |OpenTag|
      ensures text[p..p + |OpenTag|][k] == OpenTag[k]
    {
      assert text[p..p + |whole|][k] == whole[k];
    }
    var rest := text[p + |OpenTag|..];
    forall k | 0 <= k < |name| + |CloseTag|
      ensures rest[k] == (name + CloseTag)[k]
    {
      assert text[p..p + |whole|][|OpenTag| + k] == whole[|OpenTag| + k];
    }
    assert rest[..|name|] == name;
    assert rest[|name|..|name| + |CloseTag|] == CloseTag;
    assert rest[|name|] == '<';
    var n := WordRun(rest);
    assert forall k :: 0 <= k < n ==> rest[..n][k] == rest[k];
    assert n == |name|;
  }

  /** A regular-expression match: where it starts and its group 1. */
  datatype LanguageTag = LanguageTag(pos: nat, name: string)

  /** Matcher.find from `from`: the leftmost match at or after `from`. */
  function FindLanguageTag(text: string, from: nat): (r: Option<LanguageTag>)
    requires from <= |text|
    ensures r.Some? ==> from <= r.value.pos <= |text| && MatchAt(text, r.value.pos) == Some(r.value.name)
    ensures r.Some? ==> forall q :: from <= q < r.value.pos ==> MatchAt(text, q) == None
    ensures r.None? ==> forall q :: from <= q <= |text| ==> MatchAt(text, q) == None
    decreases |text| - from
  {
    match MatchAt(text, from)
    case Some(name) => Some(LanguageTag(from, name))
    case None => if from == |text| then None else FindLanguageTag(text, from + 1)
  }

  /** The languages the bundle activation is asked for while a specification file is opened. */
  function TagLanguages(text: string): (r: seq<string>)
    ensures |r| <= 1
    ensures r == [] <==> forall q :: 0 <= q <= |text| ==> MatchAt(text, q) == None
    ensures |r| == 1 ==> exists q :: 0 <= q <= |text| && MatchAt(text, q) == Some(r[0])
  {
    match FindLanguageTag(text, 0)
    case Some(tag) => [tag.name]
    case None => []
  }

  /** The language dialog's validator: None accepts; otherwise the message shown. */
  function LanguageIdValidator(newText: Option<string>): (r: Option<string>)
    ensures r.None? <==> newText.Some? && |newText.value| > 0
    ensures r.Some? ==> r.value == EmptyLanguageMessage
  {
    if newText.Some? && |newText.value| > 0 then None else Some(EmptyLanguageMessage)
  }

  /** How the user closes the language dialog. */
  datatype Prompt = Confirmed(text: string) | Cancelled

  /**
   * askUserForLanguage: the confirmed text, or "" when the dialog is cancelled. The dialog can be
   * confirmed only on text its validator accepts.
   */
  function AskUserForLanguage(answer: Prompt): (r: string)
    ensures |r| > 0 <==> answer.Confirmed? && LanguageIdValidator(Some(answer.text)).None?
    ensures |r| > 0 ==> r == answer.text
  {
    if answer.Confirmed? && LanguageIdValidator(Some(answer.text)).None? then answer.text else ""
  }

  /**
   * What opening a file meets: whether the workspace model of its project opens, the file's text
   * (None when it cannot be read; a null text is ""), the language the project declares, and the
   * user's answer to the language dialog.
   */
  datatype Workspace = Workspace(projectOpens: bool, contents: Option<string>, discovered: Option<string>, answer: Prompt)

  /** The language of a skeleton specification: the project's, else the user's. */
  function ChosenLanguage(ws: Workspace): (r: string)
    ensures ws.discovered.None? ==> (|r| > 0 <==> ws.answer.Confirmed? && |ws.answer.text| > 0)
  {
    if ws.discovered.Some? then ws.discovered.value else AskUserForLanguage(ws.answer)
  }

  /**
   * What the opened file contributes: language, options, example, rule-list entries, activations,
   * and whether the example starts out marked modified.
   */
  datatype Loaded = Loaded(
    language: Option<string>,
    spaceOptions: map<string, Option<int>>,
    example: string,
    entries: seq<Entry>,
    activated: seq<string>,
    marked: bool)

  /**
   * The contents updateModelFromFile takes from the workspace, case by case: nothing for an
   * unreadable file, a skeleton for the chosen language for an empty one, else what the loader
   * returns (nothing on a load failure) with the languages named by the file's tags.
   */
  function LoadedContents(c: Collaborators, ws: Workspace): Loaded {
    if !ws.projectOpens || ws.contents.None? then Loaded(None, map[], "", [], [], false)
    else if ws.contents.value == "" then
      var lang := ChosenLanguage(ws);
      Loaded(Some(lang), map[], "", [], if |lang| > 0 then [lang] else [], |lang| > 0)
    else
      match c.load(ws.contents.value)
      case None => Loaded(None, map[], "", [], TagLanguages(ws.contents.value), false)
      case Some(doc) => Loaded(doc.language, doc.spaceOptions, doc.example, doc.entries, TagLanguages(ws.contents.value), false)
  }

  /** What one loaded entry becomes once its rule is validated without recompute. */
  function ValidatedValue(c: Collaborators, options: map<string, Option<int>>, e: Entry): ItemValue {
    match e
    case RuleEntry(b) =>
      var st := Classify(c, options, RuleState(b, None, None), false).rule;
      RuleValue(st.boxString, st.patternString, st.patternAst)
    case SeparatorEntry(text) => SeparatorValue(text)
  }

  /** An item holding what its loaded entry becomes once validated without recompute. */
  predicate HoldsValidated(c: Collaborators, options: map<string, Option<int>>, item: Item, e: Entry)
    reads if item.RuleItem? then {item.rule} else {}
    reads if item.SeparatorItem? then {item.separator} else {}
  {
    match item
    case RuleItem(r) =>
      e.RuleEntry? && StateOf(r) == Classify(c, options, RuleState(e.boxString, None, None), false).rule
    case SeparatorItem(s) =>
      e == SeparatorEntry(s.labelText)
  }

  /** The loaded entries, each validated once without recompute, in order. */
  function ValidatedValues(c: Collaborators, options: map<string, Option<int>>, entries: seq<Entry>): (r: seq<ItemValue>)
    ensures |r| == |entries| && forall k :: 0 <= k < |entries| ==> r[k] == ValidatedValue(c, options, entries[k])
  {
    if |entries| == 0 then [] else [ValidatedValue(c, options, entries[0])] + ValidatedValues(c, options, entries[1..])
  }

  /** Items that hold their validated entries have exactly the validated values. */
  lemma ValuesOfValidated(c: Collaborators, options: map<string, Option<int>>, items: seq<Item>, entries: seq<Entry>)
    requires |items| == |entries|
    requires forall k :: 0 <= k < |items| ==> HoldsValidated(c, options, items[k], entries[k])
    ensures ValuesOf(items) == ValidatedValues(c, options, entries)
  {
  }

  /**
   * updateModelFromFile: the specification for the opened file, whether the editor starts dirty,
   * and the languages whose bundles get activated. An unreadable file or project gives the empty
   * specification; an empty file gives a skeleton for the chosen language, marked dirty when that
   * language is non-empty; otherwise the file is loaded, and a load failure gives the empty
   * specification after the bundles of the file's language tag were activated.
   */
  method UpdateModelFromFile(c: Collaborators, ws: Workspace) returns (spec: Specification, markDirty: bool, activated: seq<string>)
    ensures fresh(spec) && fresh(RulesOf(spec.rules)) && Distinct(spec.rules) && spec.collab == c && spec.exampleAst == None
    ensures var l := LoadedContents(c, ws);
      spec.language == l.language && spec.spaceOptions == l.spaceOptions && spec.example == l.example &&
      activated == l.activated && markDirty == l.marked && |spec.rules| == |l.entries| &&
      forall k :: 0 <= k < |spec.rules| ==> LoadedFrom(spec.rules[k], l.entries[k])
  {
    markDirty, activated := false, [];
    if !ws.projectOpens || ws.contents.None? {
      spec := new Specification.Default(c);
      return;
    }
    var text := ws.contents.value;
    if |text| == 0 {
      var lang := ChosenLanguage(ws);
      if |lang| > 0 {
        activated := [lang];
        spec := new Specification.Named(lang, c);
        markDirty := true;
      } else {
        spec := new Specification.Named("", c);
      }
      return;
    }
    var tag := FindLanguageTag(text, 0);
    if tag.Some? {
      activated := [tag.value.name];
    }
    var loaded := c.load(text);
    if loaded.None? {
      spec := new Specification.Default(c);
    } else {
      spec := new Specification.Load(loaded.value, c);
    }
  }

  /** Whether the example page is painted as normal or as holding a syntax error. */
  datatype Background = Normal | ErrorColor

  /** The example page and the specification's example, as one value. */
  datatype ExampleView = ExampleView(
    text: string,
    tooltip: string,
    background: Background,
    example: string,
    exampleAst: Option<Ast>,
    modified: bool,
    activated: seq<string>)

  /**
   * The example page's modify listener: the page text becomes the specification's example, the
   * example counts as modified, and a parse tree is kept when the text parses.
   */
  function AfterExampleEdit(c: Collaborators, v: ExampleView): ExampleView {
    var parsed := c.parseObject(v.text).result;
    v.(example := v.text, modified := true, exampleAst := if parsed.Some? then parsed else v.exampleAst)
  }

  /**
   * The formatted example text for the named language: transformation to a box document, box
   * parse, interpretation.
   */
  function PreviewText(c: Collaborators, language: string, values: seq<ItemValue>, options: map<string, Option<int>>, example: string, ast: Ast): (r: Option<string>)
    ensures r.Some? ==>
      c.transformToBox(language, values, options, example, ast).Some? &&
      c.parseBoxDocument(c.transformToBox(language, values, options, example, ast).value).Some?
  {
    match c.transformToBox(language, values, options, example, ast)
    case None => None
    case Some(boxText) =>
      match c.parseBoxDocument(boxText)
      case None => None
      case Some(box) => c.interpret(box)
  }

  /**
   * reformatExample: parses the specification's example; on failure the page shows the parser's
   * messages as tooltip on the error colour. On success the tree is kept, the language's bundles
   * are activated, and when the whole pipeline succeeds the page is replaced by the formatted
   * text with the tree's printed form appended, the append alone going through the modify
   * listener. Any failure after the parse is swallowed, and the page is painted normal.
   */
  function AfterReformat(c: Collaborators, v: ExampleView, language: Option<string>, values: seq<ItemValue>, options: map<string, Option<int>>): ExampleView {
    var parse := c.parseObject(v.example);
    match parse.result
    case None => v.(tooltip := c.concatenate(parse.messages), background := ErrorColor)
    case Some(ast) =>
      var parsedView := v.(exampleAst := Some(ast));
      match c.findLanguage(language)
      case None => parsedView.(background := Normal)
      case Some(name) =>
        var activatedView := parsedView.(activated := parsedView.activated + [name]);
        match PreviewText(c, name, values, options, v.example, ast)
        case None => activatedView.(background := Normal)
        case Some(formatted) =>
          AfterExampleEdit(c, activatedView.(text := formatted + c.astToString(ast))).(background := Normal)
  }

  /**
   * The page shows the error colour exactly when the example does not parse; then the tooltip holds
   * the parser's messages and neither the page text nor the example changes. Otherwise the
   * tooltip is left alone and the parse tree of the example is kept.
   */
  lemma ReformatFlagsParseErrors(c: Collaborators, v: ExampleView, language: Option<string>, values: seq<ItemValue>, options: map<string, Option<int>>)
    ensures var out := AfterReformat(c, v, language, values, options);
      var parse := c.parseObject(v.example);
      (out.background == ErrorColor <==> parse.result.None?) &&
      (parse.result.None? ==>
        out.tooltip == c.concatenate(parse.messages) && out.text == v.text && out.example == v.example &&
        out.exampleAst == v.exampleAst && out.modified == v.modified && out.activated == v.activated) &&
      (parse.result.Some? ==> out.tooltip == v.tooltip && out.exampleAst.Some?)
  {
  }

  /**
   * The page text changes only when the whole formatting pipeline succeeds; it then holds the
   * formatted text followed by the tree's printed form, and the example follows it and is modified.
   */
  lemma ReformatRewritesOnlyOnSuccess(c: Collaborators, v: ExampleView, language: Option<string>, values: seq<ItemValue>, options: map<string, Option<int>>)
    ensures var out := AfterReformat(c, v, language, values, options);
      var parse := c.parseObject(v.example);
      var lang := c.findLanguage(language);
      var preview := if parse.result.Some? && lang.Some? then PreviewText(c, lang.value, values, options, v.example, parse.result.value) else None;
      if parse.result.Some? && lang.Some? && preview.Some? then
        out.text == preview.value + c.astToString(parse.result.value) && out.example == out.text && out.modified
      else
        out.text == v.text && out.example == v.example && out.modified == v.modified
  {
  }

  /** Reformatting keeps the page and the specification's example in step. */
  lemma ReformatKeepsExampleInStep(c: Collaborators, v: ExampleView, language: Option<string>, values: seq<ItemValue>, options: map<string, Option<int>>)
    requires v.text == v.example
    ensures var out := AfterReformat(c, v, language, values, options); out.text == out.example
  {
  }

  /** At most one activation is recorded per reformat, and only for the registry's language. */
  lemma ReformatActivation(c: Collaborators, v: ExampleView, language: Option<string>, values: seq<ItemValue>, options: map<string, Option<int>>)
    ensures var out := AfterReformat(c, v, language, values, options);
      out.activated == v.activated ||
      (c.parseObject(v.example).result.Some? && c.findLanguage(language).Some? &&
       out.activated == v.activated + [c.findLanguage(language).value])
  {
  }

  /** The shortcut that reformats the example: Enter with Ctrl or Command held. */
  predicate IsReformatShortcut(keyCode: int, stateMask: bv32) {
    keyCode == EnterKey && stateMask & (CommandMask | CtrlMask) != 0
  }

  /** The editor and the state its pages share. */
  class Editor {
    /** The parser and the other capabilities. */
    const collab: Collaborators
    var model: Specification
    var ruleTable: RuleTable
    var spaceTable: SpaceOptionTable
    /** fExampleModified. */
    var exampleModified: bool
    /** The example page's text, tooltip and background. */
    var exampleText: string
    var exampleTooltip: string
    var exampleBackground: Background
    /** The languages whose workspace bundles were activated, in order. */
    var activated: seq<string>

    /** The pages share one specification and the example page shows its example. */
    ghost predicate Valid()
      reads this`ruleTable, this`spaceTable, this`model, this`exampleText, ruleTable`model, spaceTable`model
      reads model`rules, model`example
    {
      ruleTable.model == model && spaceTable.model == model && ruleTable.Valid() && exampleText == model.example
    }

    /** isDirty: any part of the specification has unsaved changes. */
    predicate IsDirty()
      reads this, ruleTable, spaceTable
    {
      ruleTable.dirty || spaceTable.dirty || exampleModified
    }

    ghost function View(): ExampleView
      reads this, model
    {
      ExampleView(exampleText, exampleTooltip, exampleBackground, model.example, model.exampleAst, exampleModified, activated)
    }

    /**
     * createPages: builds the specification from the file, attaches both tables to it, validates
     * every rule once, shows one row per option, fills the example page with the loaded example and
     * reformats it, and starts clean.
     */
    constructor CreatePages(c: Collaborators, ws: Workspace)
      ensures Valid() && !IsDirty() && collab == c && model.collab == c
      ensures fresh(model) && fresh(ruleTable) && fresh(spaceTable)
      ensures ruleTable.active == None && spaceTable.activeOption == None
      ensures ruleTable.events == 0 && spaceTable.events == 0
      ensures var l := LoadedContents(c, ws);
        model.language == l.language && model.spaceOptions == l.spaceOptions &&
        model.Values() == ValidatedValues(c, l.spaceOptions, l.entries)
      ensures var l := LoadedContents(c, ws);
        View() == AfterReformat(c, AfterExampleEdit(c, ExampleView(l.example, "", Normal, l.example, None, l.marked, l.activated)),
                                l.language, ValidatedValues(c, l.spaceOptions, l.entries), l.spaceOptions).(modified := false)
      ensures spaceTable.ShowsOptions()
    {
      var spec, markDirty, langs := UpdateModelFromFile(c, ws);
      collab := c;
      model := spec;
      exampleModified := markDirty;
      activated := langs;
      exampleText, exampleTooltip, exampleBackground := "", "", Normal;
      ruleTable := new RuleTable(spec);
      spaceTable := new SpaceOptionTable(spec);
      new;
      ghost var l := LoadedContents(c, ws);
      assert View().(text := model.example) == ExampleView(l.example, "", Normal, l.example, None, l.marked, l.activated);
      FinishPages(l.entries);
    }

    /**
     * The end of createPages: both tables take the specification (the option page showing one row
     * per option), the empty example page is filled and reformatted, and the example-modified flag is cleared, so the editor starts clean
     * even when a skeleton specification was marked dirty.
     */
    method FinishPages(ghost entries: seq<Entry>)
      requires ruleTable.model == model && spaceTable.model == model && Distinct(model.rules)
      requires |entries| == |model.rules| && forall k :: 0 <= k < |model.rules| ==> LoadedFrom(model.rules[k], entries[k])
      requires !ruleTable.dirty && !spaceTable.dirty && exampleText == ""
      modifies ruleTable`model, RulesOf(model.rules), spaceTable`model, spaceTable`items
      modifies this`exampleText, this`exampleTooltip, this`exampleBackground, this`exampleModified, this`activated
      modifies model`example, model`exampleAst
      ensures Valid() && !IsDirty()
      ensures model.language == old(model.language) && model.spaceOptions == old(model.spaceOptions)
      ensures ruleTable.events == old(ruleTable.events) && spaceTable.events == old(spaceTable.events)
      ensures ruleTable.active == old(ruleTable.active) && spaceTable.activeOption == old(spaceTable.activeOption)
      ensures model.Values() == ValidatedValues(model.collab, model.spaceOptions, entries)
      ensures spaceTable.ShowsOptions()
      ensures View() == AfterReformat(collab, AfterExampleEdit(collab, old(View()).(text := old(model.example))),
                                      model.language, ValidatedValues(model.collab, model.spaceOptions, entries),
                                      model.spaceOptions).(modified := false)
    {
      AttachTables(entries);
      ShowExample(ValidatedValues(model.collab, model.spaceOptions, entries));
    }

    /**
     * The empty example page is filled and reformatted against the rules' values, and the
     * example-modified flag cleared; the option rows are left as they are.
     */
    method ShowExample(ghost values: seq<ItemValue>)
      requires exampleText == "" && values == model.Values()
      modifies this`exampleText, this`exampleTooltip, this`exampleBackground, this`exampleModified, this`activated
      modifies model`example, model`exampleAst
      ensures !exampleModified && exampleText == model.example && model.Values() == values
      ensures old(ruleTable.Valid()) ==> ruleTable.Valid()
      ensures ruleTable.dirty == old(ruleTable.dirty) && spaceTable.dirty == old(spaceTable.dirty)
      ensures ruleTable.events == old(ruleTable.events) && spaceTable.events == old(spaceTable.events)
      ensures ruleTable.active == old(ruleTable.active) && spaceTable.activeOption == old(spaceTable.activeOption)
      ensures old(spaceTable.ShowsOptions()) ==> spaceTable.ShowsOptions()
      ensures View() == AfterReformat(collab, AfterExampleEdit(collab, old(View()).(text := old(model.example))),
                                      model.language, values, model.spaceOptions).(modified := false)
    {
      ghost var rows := spaceTable.items;
      UpdateExample();
      ValuesOfUnchanged(model.rules);
      exampleModified := false;
      ValuesOfUnchanged(model.rules);
      ShownUnchanged(rows);
    }

    /**
     * Both tables take the specification: every rule, as loaded from its entry, is validated once
     * without recompute, and every option gets a row.
     */
    method AttachTables(ghost entries: seq<Entry>)
      requires ruleTable.model == model && spaceTable.model == model && Distinct(model.rules)
      requires |entries| == |model.rules| && forall k :: 0 <= k < |model.rules| ==> LoadedFrom(model.rules[k], entries[k])
      modifies ruleTable`model, RulesOf(model.rules), spaceTable`model, spaceTable`items
      ensures ruleTable.model == model && spaceTable.model == model && ruleTable.Valid()
      ensures ruleTable.dirty == old(ruleTable.dirty) && spaceTable.dirty == old(spaceTable.dirty)
      ensures ruleTable.events == old(ruleTable.events) && spaceTable.events == old(spaceTable.events)
      ensures ruleTable.active == old(ruleTable.active) && spaceTable.activeOption == old(spaceTable.activeOption)
      ensures model.Values() == ValidatedValues(model.collab, model.spaceOptions, entries)
      ensures spaceTable.ShowsOptions()
    {
      AttachRules(entries);
      label Attached:
      spaceTable.SetModel(model);
      ValuesOfUnchanged@Attached(model.rules);
    }

    /** fRuleTable.setModel(fModel): every loaded rule is validated once without recompute. */
    method AttachRules(ghost entries: seq<Entry>)
      requires ruleTable.model == model && Distinct(model.rules)
      requires |entries| == |model.rules| && forall k :: 0 <= k < |model.rules| ==> LoadedFrom(model.rules[k], entries[k])
      modifies ruleTable`model, RulesOf(model.rules)
      ensures ruleTable.model == model && ruleTable.Valid()
      ensures ruleTable.dirty == old(ruleTable.dirty) && ruleTable.events == old(ruleTable.events)
      ensures ruleTable.active == old(ruleTable.active)
      ensures forall k :: 0 <= k < |model.rules| ==> HoldsValidated(model.collab, model.spaceOptions, model.rules[k], entries[k])
      ensures model.Values() == ValidatedValues(model.collab, model.spaceOptions, entries)
    {
      ruleTable.SetModel(model);
      forall k | 0 <= k < |model.rules|
        ensures HoldsValidated(model.collab, model.spaceOptions, model.rules[k], entries[k])
      {
        assert old(LoadedFrom(model.rules[k], entries[k]));
      }
      ValuesOfValidated(model.collab, model.spaceOptions, model.rules, entries);
    }

    /** The example page's modify listener. */
    method ExampleModified()
      modifies model`example, model`exampleAst, this`exampleModified
      ensures View() == AfterExampleEdit(collab, old(View()))
    {
      model.example := exampleText;
      exampleModified := true;
      var parsed := collab.parseObject(exampleText);
      if parsed.result.Some? {
        model.exampleAst := parsed.result;
      }
    }

    /** The user types on the example page. */
    method EditExample(newText: string)
      modifies this`exampleText, this`exampleModified, model`example, model`exampleAst
      ensures View() == AfterExampleEdit(collab, old(View()).(text := newText))
      ensures model.example == exampleText == newText && IsDirty()
    {
      exampleText := newText;
      ExampleModified();
    }

    /** reformatExample. */
    method ReformatExample()
      modifies this`exampleText, this`exampleTooltip, this`exampleBackground, this`exampleModified, this`activated
      modifies model`example, model`exampleAst
      ensures View() == AfterReformat(collab, old(View()), model.language, model.Values(), model.spaceOptions)
    {
      var values := model.Values();
      var example := model.example;
      var parse := collab.parseObject(example);
      if parse.result.None? {
        exampleTooltip := collab.concatenate(parse.messages);
        exampleBackground := ErrorColor;
        return;
      }
      var ast := parse.result.value;
      model.exampleAst := Some(ast);
      var language := collab.findLanguage(model.language);
      if language.Some? {
        activated := activated + [language.value];
        var formatted := PreviewText(collab, language.value, values, model.spaceOptions, example, ast);
        if formatted.Some? {
          exampleText := formatted.value;
          exampleText := exampleText + collab.astToString(ast);
          ExampleModified();
        }
      }
      exampleBackground := Normal;
      ValuesOfUnchanged(model.rules);
    }

    /**
     * updateExample: an empty page first takes the specification's example through the modify
     * listener; then the example is reformatted.
     */
    method UpdateExample()
      modifies this`exampleText, this`exampleTooltip, this`exampleBackground, this`exampleModified, this`activated
      modifies model`example, model`exampleAst
      ensures var filled := if old(exampleText) == "" then AfterExampleEdit(collab, old(View()).(text := old(model.example))) else old(View());
        View() == AfterReformat(collab, filled, model.language, model.Values(), model.spaceOptions)
      ensures old(exampleText) == "" || old(exampleText == model.example) ==> exampleText == model.example
    {
      if exampleText == "" {
        exampleText := model.example;
        ExampleModified();
      }
      ghost var filled := View();
      ReformatExample();
      if filled.text == filled.example {
        ReformatKeepsExampleInStep(collab, filled, model.language, model.Values(), model.spaceOptions);
      }
    }

    /** The example page's key listener. */
    method KeyReleased(keyCode: int, stateMask: bv32)
      modifies this`exampleText, this`exampleTooltip, this`exampleBackground, this`exampleModified, this`activated
      modifies model`example, model`exampleAst
      ensures IsReformatShortcut(keyCode, stateMask) ==>
        View() == AfterReformat(collab, old(View()), model.language, model.Values(), model.spaceOptions)
      ensures !IsReformatShortcut(keyCode, stateMask) ==> View() == old(View())
    {
      if keyCode == EnterKey && stateMask & (CommandMask | CtrlMask) != 0 {
        ReformatExample();
      }
    }

    /** pageChange: the option page is refreshed and the example page updated on activation. */
    method PageChange(newPageIndex: int)
      modifies this`exampleText, this`exampleTooltip, this`exampleBackground, this`exampleModified, this`activated
      modifies model`example, model`exampleAst, spaceTable`items
      ensures newPageIndex == 1 ==>
        var filled := if old(exampleText) == "" then AfterExampleEdit(collab, old(View()).(text := old(model.example))) else old(View());
        View() == AfterReformat(collab, filled, model.language, model.Values(), model.spaceOptions)
      ensures newPageIndex != 1 ==> View() == old(View())
      ensures newPageIndex == 2 ==> spaceTable.ShowsOptions()
      ensures newPageIndex != 2 ==> spaceTable.items == old(spaceTable.items)
    {
      if newPageIndex == 2 {
        spaceTable.Refresh();
      } else if newPageIndex == 1 {
        UpdateExample();
      }
    }

    /** moveUp: the active rule one place up, as `move(-1)`. */
    method MoveUp()
      requires Valid()
      modifies ruleTable`dirty, ruleTable`events, model`rules, ruleTable.ActiveRule()
      ensures Valid() && ruleTable.active == old(ruleTable.active)
      ensures var cur := old(ruleTable.ActiveIndex());
        if old(ruleTable.active).Some? && old(ruleTable.active).value.RuleItem? && 1 <= cur then
          model.rules == Moved(old(model.rules), cur, cur - 1) &&
          StateOf(ruleTable.active.value.rule) ==
            Classify(model.collab, model.spaceOptions, old(StateOf(ruleTable.active.value.rule)), false).rule &&
          ruleTable.dirty && ruleTable.events == old(ruleTable.events) + (if old(ruleTable.dirty) then 0 else 1)
        else
          model.rules == old(model.rules) && ruleTable.dirty == old(ruleTable.dirty) &&
          ruleTable.events == old(ruleTable.events) &&
          (ruleTable.active.Some? && ruleTable.active.value.RuleItem? ==>
            StateOf(ruleTable.active.value.rule) == old(StateOf(ruleTable.active.value.rule)))
    {
      ghost var cur := ruleTable.ActiveIndex();
      ghost var rules := model.rules;
      ruleTable.Move(-1);
      assert cur + -1 == cur - 1;
      assert 1 <= cur && ruleTable.active.Some? && ruleTable.active.value.RuleItem? ==>
        model.rules == Moved(rules, cur, cur - 1);
    }

    /** moveDown: the active rule one place down, as `move(1)` with the corrected guard. */
    method MoveDown()
      requires Valid()
      modifies ruleTable`dirty, ruleTable`events, model`rules, ruleTable.ActiveRule()
      ensures Valid() && ruleTable.active == old(ruleTable.active)
      ensures var cur := old(ruleTable.ActiveIndex());
        if old(ruleTable.active).Some? && old(ruleTable.active).value.RuleItem? && 0 <= cur < |old(model.rules)| - 1 then
          model.rules == Moved(old(model.rules), cur, cur + 1) &&
          StateOf(ruleTable.active.value.rule) ==
            Classify(model.collab, model.spaceOptions, old(StateOf(ruleTable.active.value.rule)), false).rule &&
          ruleTable.dirty && ruleTable.events == old(ruleTable.events) + (if old(ruleTable.dirty) then 0 else 1)
        else
          model.rules == old(model.rules) && ruleTable.dirty == old(ruleTable.dirty) &&
          ruleTable.events == old(ruleTable.events) &&
          (ruleTable.active.Some? && ruleTable.active.value.RuleItem? ==>
            StateOf(ruleTable.active.value.rule) == old(StateOf(ruleTable.active.value.rule)))
    {
      ruleTable.Move(1);
    }

    /**
     * doSave: after the file is written, all three dirty flags are cleared, and each table notifies
     * its listeners once when its flag was set. A failed write leaves every flag and counter as it was.
     */
    method DoSave(writeSucceeds: bool)
      modifies ruleTable`dirty, ruleTable`events, spaceTable`dirty, spaceTable`events, this`exampleModified
      ensures writeSucceeds ==> !IsDirty()
      ensures !writeSucceeds ==> IsDirty() == old(IsDirty()) && exampleModified == old(exampleModified)
      ensures !writeSucceeds ==> ruleTable.dirty == old(ruleTable.dirty) && spaceTable.dirty == old(spaceTable.dirty)
      ensures !writeSucceeds ==> ruleTable.events == old(ruleTable.events) && spaceTable.events == old(spaceTable.events)
      ensures writeSucceeds ==>
        ruleTable.events == old(ruleTable.events) + (if old(ruleTable.dirty) then 1 else 0) &&
        spaceTable.events == old(spaceTable.events) + (if old(spaceTable.dirty) then 1 else 0)
    {
      if writeSucceeds {
        ruleTable.SetDirty(false);
        spaceTable.SetDirty(false);
        exampleModified := false;
      }
    }
  }
}
