/**
 * The rule editor part: the active-item cursor, the dirty flag, the list edits (new rule, new
 * separator, move, delete) and the per-rule validation that fills each row's status, tooltip and
 * preview cells.
 */
module RuleEditing {
  import opened Wrappers
  import opened ListOps
  import opened TextOps
  import opened SpecModel

  const UnableToParse := "Unable to parse formatted text:"

  /** Why a rule row shows the status it shows. */
  datatype Verdict =
    | EmptyBoxRule
    | BoxSyntaxError(messages: string)
    | RenderFailure(message: string, boxString: string)
    | NoParser
    | OutputSyntaxError(messages: string)
    | Ok(astClass: string)
  {
    /** The text of the status cell. */
    function Status(): string {
      match this
      case EmptyBoxRule => "Empty box rule"
      case BoxSyntaxError(_) => "Syntax error in box rule"
      case RenderFailure(m, _) => m
      case NoParser => "Unable to parse formatted text: no parser"
      case OutputSyntaxError(_) => "Syntax error in formatted output"
      case Ok(_) => "Ok"
    }

    /** The tooltip attached to the row. */
    function Tooltip(): string {
      match this
      case EmptyBoxRule => ""
      case BoxSyntaxError(m) => m
      case RenderFailure(_, b) => b
      case NoParser => ""
      case OutputSyntaxError(m) => m
      case Ok(name) => name
    }
  }

  /** The cells of a rule row: the edit text, the preview (None: left as it was) and the verdict. */
  datatype Row = Row(edit: string, preview: Option<string>, verdict: Verdict)

  /** The three fields of a Rule. */
  datatype RuleState = RuleState(boxString: Option<string>, patternString: Option<string>, patternAst: Option<Ast>)

  /** A row and the rule's fields after validation. */
  datatype Classified = Classified(row: Row, rule: RuleState)

  /** A BoxException: the renderer's messages and the raw, unbound box text. */
  datatype BoxError = BoxError(message: string, boxString: string)

  function StateOf(r: Rule): RuleState
    reads r
  {
    RuleState(r.boxString, r.patternString, r.patternAst)
  }

  /**
   * getFormattedBox: binds the space options into non-empty box text and renders it; any message
   * from the renderer becomes a BoxError. Null or empty box text renders to "" without the renderer.
   */
  function FormattedBox(c: Collaborators, options: map<string, Option<int>>, boxString: Option<string>): (r: Result<string, BoxError>)
    ensures boxString.None? || boxString == Some("") ==> r == Success("")
    ensures r.Failure? <==>
      boxString.Some? && |boxString.value| > 0 && |c.box2Text(c.bind(boxString.value, options)).messages| > 0
    ensures r.Failure? ==> r.error.boxString == boxString.value
    ensures r.Failure? ==> r.error.message == c.concatenate(c.box2Text(c.bind(boxString.value, options)).messages)
    ensures r.Success? && boxString.Some? && |boxString.value| > 0 ==>
      r.value == c.box2Text(c.bind(boxString.value, options)).text
  {
    if boxString.Some? && |boxString.value| > 0 then
      var rendered := c.box2Text(c.bind(boxString.value, options));
      if |rendered.messages| > 0 then Failure(BoxError(c.concatenate(rendered.messages), boxString.value))
      else Success(rendered.text)
    else Success("")
  }

  /**
   * updateRuleTableItem as a function of the rule's fields: the fail-fast chain empty rule, box
   * syntax, rendering (recompute mode only), re-parse of the preview text, Ok.
   */
  function Classify(c: Collaborators, options: map<string, Option<int>>, r: RuleState, recompute: bool): (out: Classified)
    ensures out.row.edit == (if r.boxString.Some? then r.boxString.value else "\n")
    ensures out.rule.boxString == r.boxString
  {
    var edit := r.boxString.GetOr("\n");
    match r.boxString
    case None => Classified(Row(edit, None, EmptyBoxRule), r)
    case Some(b) =>
      var boxParse := c.parseBox(b);
      if boxParse.result.None? then
        Classified(Row(edit, None, BoxSyntaxError(c.concatenate(boxParse.messages))), r)
      else
        var rendering := if recompute then FormattedBox(c, options, r.boxString) else Success(r.patternString.GetOr(""));
        if rendering.Failure? then
          Classified(Row(edit, None, RenderFailure(rendering.error.message, rendering.error.boxString)), r)
        else
          var formatted := rendering.value;
          var stored := if recompute && |formatted| > 0 then Some(formatted) else r.patternString;
          var objectParse := c.parseObject(formatted);
          var messages := boxParse.messages + objectParse.messages;
          match objectParse.result
          case None =>
            var verdict :=
              if |messages| == 1 && Contains(c.concatenate(messages), UnableToParse) then NoParser
              else OutputSyntaxError(c.concatenate(messages));
            Classified(Row(edit, Some(formatted), verdict), r.(patternString := stored))
          case Some(ast) =>
            Classified(Row(edit, Some(formatted), Ok(c.className(ast))), r.(patternString := stored, patternAst := Some(ast)))
  }

  /** A rule without box text is reported empty, and only such a rule; nothing changes. */
  lemma ClassifyEmpty(c: Collaborators, options: map<string, Option<int>>, r: RuleState, recompute: bool)
    ensures var out := Classify(c, options, r, recompute);
      (out.row.verdict == EmptyBoxRule <==> r.boxString == None) &&
      (r.boxString == None ==> out.rule == r && out.row.edit == "\n" && out.row.verdict.Status() == "Empty box rule")
  {
  }

  /**
   * Box text the box grammar rejects is reported as a box syntax error carrying the parser's
   * messages, and the rule is left as it was.
   */
  lemma ClassifyBoxSyntaxError(c: Collaborators, options: map<string, Option<int>>, r: RuleState, recompute: bool)
    ensures var out := Classify(c, options, r, recompute);
      (out.row.verdict.BoxSyntaxError? <==> r.boxString.Some? && c.parseBox(r.boxString.value).result.None?) &&
      (out.row.verdict.BoxSyntaxError? ==>
        out.rule == r && out.row.preview == None &&
        out.row.verdict.Tooltip() == c.concatenate(c.parseBox(r.boxString.value).messages))
  {
  }

  /**
   * A rendering failure can only happen in recompute mode on non-empty box text; its status is the
   * renderer's concatenated messages and its tooltip the raw box text, and it returns before the
   * preview cell or any field of the rule changes.
   */
  lemma ClassifyRenderFailure(c: Collaborators, options: map<string, Option<int>>, r: RuleState, recompute: bool)
    ensures var out := Classify(c, options, r, recompute);
      (out.row.verdict.RenderFailure? <==>
        recompute && r.boxString.Some? && |r.boxString.value| > 0 &&
        c.parseBox(r.boxString.value).result.Some? &&
        |c.box2Text(c.bind(r.boxString.value, options)).messages| > 0) &&
      (out.row.verdict.RenderFailure? ==>
        out.rule == r && out.row.preview == None && out.row.verdict.Tooltip() == r.boxString.value &&
        out.row.verdict.Status() == c.concatenate(c.box2Text(c.bind(r.boxString.value, options)).messages))
  {
  }

  /**
   * The round-trip check: the status is Ok exactly when the preview text re-parses, and only then
   * does patternAst change, to the parse tree of the preview.
   */
  lemma ClassifyOkIffReparses(c: Collaborators, options: map<string, Option<int>>, r: RuleState, recompute: bool)
    ensures var out := Classify(c, options, r, recompute);
      (out.row.verdict.Ok? <==> out.row.preview.Some? && c.parseObject(out.row.preview.value).result.Some?) &&
      (out.row.verdict.Ok? ==> out.rule.patternAst == c.parseObject(out.row.preview.value).result) &&
      (!out.row.verdict.Ok? ==> out.rule.patternAst == r.patternAst)
  {
  }

  /**
   * A failed re-parse reports "no parser" exactly when the message handler holds one message
   * mentioning "Unable to parse formatted text:", and a syntax error in the output otherwise.
   */
  lemma ClassifyReparseFailure(c: Collaborators, options: map<string, Option<int>>, r: RuleState, recompute: bool)
    requires r.boxString.Some?
    ensures var out := Classify(c, options, r, recompute);
      var messages := c.parseBox(r.boxString.value).messages + c.parseObject(out.row.preview.GetOr("")).messages;
      out.row.preview.Some? && c.parseObject(out.row.preview.value).result.None? ==>
        (out.row.verdict == NoParser <==> |messages| == 1 && Contains(c.concatenate(messages), UnableToParse)) &&
        (out.row.verdict.OutputSyntaxError? <==> !(|messages| == 1 && Contains(c.concatenate(messages), UnableToParse)))
  {
  }

  /**
   * Validation never touches the box text. patternString changes only in recompute mode and only to
   * a non-empty rendering, which is also the preview. Without recompute the preview is the stored
   * pattern, or "" when there is none.
   */
  lemma ClassifyPatternString(c: Collaborators, options: map<string, Option<int>>, r: RuleState, recompute: bool)
    ensures var out := Classify(c, options, r, recompute);
      out.rule.boxString == r.boxString &&
      (out.rule.patternString != r.patternString ==>
        recompute && out.rule.patternString.Some? && |out.rule.patternString.value| > 0 &&
        out.row.preview == out.rule.patternString) &&
      (!recompute ==>
        out.rule.patternString == r.patternString &&
        (out.row.preview.Some? ==> out.row.preview == Some(r.patternString.GetOr(""))))
  {
  }

  /**
   * In recompute mode a successful rendering of well-formed box text is what the preview shows, and
   * when it is non-empty it becomes the stored patternString; an empty rendering leaves the stored
   * pattern alone.
   */
  lemma ClassifyRecomputeStores(c: Collaborators, options: map<string, Option<int>>, r: RuleState)
    requires r.boxString.Some? && c.parseBox(r.boxString.value).result.Some?
    requires FormattedBox(c, options, r.boxString).Success?
    ensures var f := FormattedBox(c, options, r.boxString).value;
      var out := Classify(c, options, r, true);
      out.row.preview == Some(f) &&
      (|f| > 0 ==> out.rule.patternString == Some(f)) &&
      (|f| == 0 ==> out.rule.patternString == r.patternString)
  {
  }

  /** Empty box text is never handed to the binder or the renderer: their behaviour is irrelevant. */
  lemma EmptyBoxNotRendered(c: Collaborators, options: map<string, Option<int>>, r: RuleState, recompute: bool,
                            bind': (string, map<string, Option<int>>) -> string, box2Text': string -> Rendered)
    requires r.boxString == Some("")
    ensures Classify(c.(bind := bind', box2Text := box2Text'), options, r, recompute) == Classify(c, options, r, recompute)
  {
  }

  /** Validating twice in recompute mode with no edit in between changes nothing more. */
  lemma ClassifyIdempotent(c: Collaborators, options: map<string, Option<int>>, r: RuleState)
    ensures var once := Classify(c, options, r, true);
      Classify(c, options, once.rule, true) == once
  {
  }

  /**
   * What `move` does to the rule list as the source is written, with addRule(i, x) behaving as
   * List.add: when cur + diff passes the end of the shortened list, the add throws after the
   * rule was already removed.
   */
  function MovedAsWritten<T>(s: seq<T>, cur: int, diff: int): seq<T>
    requires -1 <= cur < |s|
  {
    if cur + diff < 0 || cur < 0 then s
    else if cur + diff > |s| - 1 then RemoveAt(s, cur)
    else Moved(s, cur, cur + diff)
  }

  /** As written, moving the last rule down drops it from the specification. */
  lemma MoveDownLosesLastRule<T>(s: seq<T>)
    requires |s| > 0 && Distinct(s)
    ensures |MovedAsWritten(s, |s| - 1, 1)| == |s| - 1
    ensures s[|s| - 1] !in MovedAsWritten(s, |s| - 1, 1)
  {
    DistinctRemoveAt(s, |s| - 1);
  }

  /** The rule editor's model-side state. */
  class RuleTable {
    var model: Specification
    /** fActiveItem: the item of the last selected row, or of the last inserted item. */
    var active: Option<Item>
    var dirty: bool
    /** How many PROP_DIRTY notifications the listeners have received. */
    var events: nat

    constructor (m: Specification)
      ensures model == m && active == None && !dirty && events == 0
    {
      model, active, dirty, events := m, None, false, 0;
    }

    ghost predicate Valid()
      reads this`model, model`rules
    {
      Distinct(model.rules)
    }

    /** `rules.indexOf(fActiveItem)`, or -1 without an active item. */
    function ActiveIndex(): int
      reads this, model
    {
      if active.None? then -1 else IndexOf(model.rules, active.value)
    }

    /** The active rule, as a frame. */
    function ActiveRule(): set<object>
      reads this
    {
      if active.Some? && active.value.RuleItem? then {active.value.rule} else {}
    }

    /** The Rule objects of the list, as a frame. */
    function Rules(): set<Rule>
      reads this, model
    {
      RulesOf(model.rules)
    }

    /** setDirty: notifies the listeners only when the flag actually changes. */
    method SetDirty(b: bool)
      modifies this`dirty, this`events
      ensures dirty == b
      ensures events == old(events) + (if old(dirty) == b then 0 else 1)
    {
      if dirty != b {
        dirty := b;
        events := events + 1;
      }
    }

    /** updateRuleTableItem: validates `rule`, updating its pattern fields as Classify says. */
    method UpdateRuleTableItem(rule: Rule, recompute: bool) returns (row: Row)
      modifies rule
      ensures var out := Classify(model.collab, model.spaceOptions, old(StateOf(rule)), recompute);
        row == out.row && StateOf(rule) == out.rule
    {
      var c := model.collab;
      var boxString := rule.boxString;
      var edit := boxString.GetOr("\n");
      if boxString.None? {
        return Row(edit, None, EmptyBoxRule);
      }
      var boxParse := c.parseBox(boxString.value);
      if boxParse.result.None? {
        return Row(edit, None, BoxSyntaxError(c.concatenate(boxParse.messages)));
      }
      var formatted: string;
      if recompute {
        var rendering := FormattedBox(c, model.spaceOptions, boxString);
        if rendering.Failure? {
          return Row(edit, None, RenderFailure(rendering.error.message, rendering.error.boxString));
        }
        formatted := rendering.value;
        if |formatted| > 0 {
          rule.patternString := Some(formatted);
        }
      } else {
        formatted := rule.patternString.GetOr("");
      }
      var objectParse := c.parseObject(formatted);
      if objectParse.result.None? {
        var messages := boxParse.messages + objectParse.messages;
        if |messages| == 1 && Contains(c.concatenate(messages), UnableToParse) {
          row := Row(edit, Some(formatted), NoParser);
        } else {
          row := Row(edit, Some(formatted), OutputSyntaxError(c.concatenate(messages)));
        }
      } else {
        rule.patternAst := objectParse.result;
        row := Row(edit, Some(formatted), Ok(c.className(objectParse.result.value)));
      }
    }

    /** refresh: re-creates every row, validating each rule without recomputing it. */
    method Refresh()
      requires Valid()
      modifies Rules()
      ensures forall k :: 0 <= k < |model.rules| && model.rules[k].RuleItem? ==>
        StateOf(model.rules[k].rule) == Classify(model.collab, model.spaceOptions, old(StateOf(model.rules[k].rule)), false).rule
    {
      var i := 0;
      while i < |model.rules|
        invariant 0 <= i <= |model.rules|
        invariant forall k :: 0 <= k < i && model.rules[k].RuleItem? ==>
          StateOf(model.rules[k].rule) == Classify(model.collab, model.spaceOptions, old(StateOf(model.rules[k].rule)), false).rule
        invariant forall k :: i <= k < |model.rules| && model.rules[k].RuleItem? ==>
          StateOf(model.rules[k].rule) == old(StateOf(model.rules[k].rule))
      {
        if model.rules[i].RuleItem? {
          var rule := model.rules[i].rule;
          assert forall k :: 0 <= k < |model.rules| && k != i && model.rules[k].RuleItem? ==> model.rules[k].rule != rule;
          var _ := UpdateRuleTableItem(rule, false);
        }
        i := i + 1;
      }
    }

    /** setModel: attaches the specification and refreshes the rows. */
    method SetModel(m: Specification)
      requires Distinct(m.rules)
      modifies this`model, RulesOf(m.rules)
      ensures model == m && Valid()
      ensures active == old(active) && dirty == old(dirty) && events == old(events)
      ensures forall k :: 0 <= k < |m.rules| && m.rules[k].RuleItem? ==>
        StateOf(m.rules[k].rule) == Classify(m.collab, m.spaceOptions, old(StateOf(m.rules[k].rule)), false).rule
    {
      model := m;
      Refresh();
    }

    /** The row-selection listener: the selected row's item becomes the active item. */
    method Select(row: Option<nat>)
      requires row.Some? ==> row.value < |model.rules|
      modifies this`active
      ensures active == if row.Some? then Some(model.rules[row.value]) else old(active)
    {
      if row.Some? {
        active := Some(model.rules[row.value]);
      }
    }

    /** RuleModifier: new box text for the rule under the cell editor, validated in recompute mode. */
    method ModifyRule(rule: Rule, text: string) returns (row: Row)
      modifies rule, this`dirty, this`events
      ensures var out := Classify(model.collab, model.spaceOptions, old(StateOf(rule)).(boxString := Some(text)), true);
        row == out.row && StateOf(rule) == out.rule
      ensures dirty && events == old(events) + (if old(dirty) then 0 else 1)
    {
      rule.boxString := Some(text);
      row := UpdateRuleTableItem(rule, true);
      SetDirty(true);
    }

    /** SeparatorModifier: a new label for the separator under the cell editor. */
    method ModifySeparator(sep: Separator, text: string)
      modifies sep, this`dirty, this`events
      ensures sep.labelText == text
      ensures dirty && events == old(events) + (if old(dirty) then 0 else 1)
    {
      sep.labelText := text;
      SetDirty(true);
    }

    /**
     * addSeparator: inserts a fresh separator before the active item and makes it active, or
     * appends it without an active item. The dirty flag is never touched. An active item no longer
     * in the list gives index -1, whose insertion throws: nothing changes.
     */
    method AddSeparator() returns (s: Separator)
      requires Valid()
      modifies this`active, model`rules
      ensures Valid() && fresh(s) && s.labelText == ""
      ensures old(active).Some? && old(ActiveIndex()) >= 0 ==>
        model.rules == InsertAt(old(model.rules), old(ActiveIndex()), SeparatorItem(s)) && active == Some(SeparatorItem(s))
      ensures old(active).Some? && old(ActiveIndex()) < 0 ==>
        model.rules == old(model.rules) && active == old(active)
      ensures old(active).None? ==> model.rules == old(model.rules) + [SeparatorItem(s)] && active == None
    {
      s := new Separator();
      DistinctInsertAt(model.rules, |model.rules|, SeparatorItem(s));
      if active.Some? {
        var i := IndexOf(model.rules, active.value);
        if i < 0 {
          return;
        }
        DistinctInsertAt(model.rules, i, SeparatorItem(s));
        model.AddRuleAt(i, SeparatorItem(s));
        active := Some(SeparatorItem(s));
      } else {
        model.AddRule(SeparatorItem(s));
      }
    }

    /**
     * newRule: inserts a fresh rule before the active item (at index 0 when the active item is no
     * longer in the list) and makes it active, or appends it without an active item; either way the
     * specification becomes dirty.
     */
    method NewRule() returns (r: Rule)
      requires Valid()
      modifies this`active, this`dirty, this`events, model`rules
      ensures Valid() && fresh(r) && StateOf(r) == RuleState(None, None, None)
      ensures old(active).Some? ==>
        model.rules == InsertAt(old(model.rules), if old(ActiveIndex()) < 0 then 0 else old(ActiveIndex()), RuleItem(r)) &&
        active == Some(RuleItem(r))
      ensures old(active).None? ==> model.rules == old(model.rules) + [RuleItem(r)] && active == None
      ensures dirty && events == old(events) + (if old(dirty) then 0 else 1)
    {
      r := new Rule();
      ClassifyEmpty(model.collab, model.spaceOptions, StateOf(r), false);
      if active.Some? {
        var i := IndexOf(model.rules, active.value);
        if i < 0 {
          i := 0;
        }
        DistinctInsertAt(model.rules, i, RuleItem(r));
        model.AddRuleAt(i, RuleItem(r));
        active := Some(RuleItem(r));
      } else {
        DistinctInsertAt(model.rules, |model.rules|, RuleItem(r));
        model.AddRule(RuleItem(r));
      }
      var _ := UpdateRuleTableItem(r, false);
      SetDirty(true);
    }

    /**
     * move(diff), with the upper bound the source leaves out (see MovedAsWritten): the active rule
     * moves to index cur + diff when that index is within the list, its row is validated again
     * without recompute, and the specification becomes dirty. A separator, no active item, an
     * active rule no longer in the list or a target outside the list leave everything unchanged.
     */
    method Move(diff: int)
      requires Valid()
      modifies this`dirty, this`events, model`rules, ActiveRule()
      ensures Valid() && active == old(active)
      ensures var cur := old(ActiveIndex());
        if old(active).Some? && old(active).value.RuleItem? && 0 <= cur && 0 <= cur + diff < |old(model.rules)| then
          model.rules == Moved(old(model.rules), cur, cur + diff) &&
          StateOf(active.value.rule) == Classify(model.collab, model.spaceOptions, old(StateOf(active.value.rule)), false).rule &&
          dirty && events == old(events) + (if old(dirty) then 0 else 1)
        else
          model.rules == old(model.rules) && dirty == old(dirty) && events == old(events) &&
          (active.Some? && active.value.RuleItem? ==> StateOf(active.value.rule) == old(StateOf(active.value.rule)))
    {
      if active.Some? && active.value.RuleItem? {
        var r := active.value.rule;
        var cur := IndexOf(model.rules, active.value);
        if 0 <= cur && 0 <= cur + diff < |model.rules| {
          MovedProperties(model.rules, cur, cur + diff);
          model.RemoveRuleAt(cur);
          model.AddRuleAt(cur + diff, RuleItem(r));
          var _ := UpdateRuleTableItem(r, false);
          SetDirty(true);
        }
      }
    }

    /**
     * deleteRule: removes the active item from the list and marks the specification dirty. The
     * active item is not cleared. Without an active item, or with one no longer in the list (whose
     * index -1 makes the removal throw), nothing changes.
     */
    method DeleteRule()
      requires Valid()
      modifies this`dirty, this`events, model`rules
      ensures Valid() && active == old(active)
      ensures var i := old(ActiveIndex());
        if i >= 0 then
          model.rules == RemoveAt(old(model.rules), i) && old(active).value !in model.rules &&
          dirty && events == old(events) + (if old(dirty) then 0 else 1)
        else
          model.rules == old(model.rules) && dirty == old(dirty) && events == old(events)
    {
      if active.Some? {
        var i := IndexOf(model.rules, active.value);
        if i < 0 {
          return;
        }
        DistinctRemoveAt(model.rules, i);
        model.RemoveRuleAt(i);
        SetDirty(true);
      }
    }
  }
}
