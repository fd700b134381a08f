/**
 * The formatting specification that the three editor parts share: the target language, the ordered
 * list of rules and separators, the space options, the example program and its parse tree.
 * The Specification, Rule and Separator classes are not part of this model's sources; their list and
 * map operations are taken to behave as java.util.List and java.util.Map do. Everything the editors
 * call out to (the parsers, the binder, the box engine, the transformer, the interpreter, the language
 * registry) is a function value of the datatype Collaborators.
 */
module SpecModel {
  import opened Wrappers
  import ListOps

  /** An opaque handle for a parse tree of the target language. */
  datatype Ast = Ast(handle: nat)

  /** An opaque handle for a parsed box expression. */
  datatype BoxAst = BoxAst(handle: nat)

  /** A parser's answer (null on failure) and the messages it sent to the message handler. */
  datatype Parsed<T> = Parsed(result: Option<T>, messages: seq<string>)

  /** What BoxFactory.box2Text returns and the messages it reports. */
  datatype Rendered = Rendered(text: string, messages: seq<string>)

  /** One entry of a stored specification document. */
  datatype Entry = RuleEntry(boxString: Option<string>) | SeparatorEntry(labelText: string)

  /** What Parser.load reads out of a specification file. */
  datatype Document = Document(
    language: Option<string>,
    entries: seq<Entry>,
    spaceOptions: map<string, Option<int>>,
    example: string)

  /** The value of a rule-list item, as the transformer sees it. */
  datatype ItemValue =
    | RuleValue(boxString: Option<string>, patternString: Option<string>, patternAst: Option<Ast>)
    | SeparatorValue(labelText: string)

  /** The external capabilities, each a function from its inputs to its outcome. */
  datatype Collaborators = Collaborators(
    /** Parser.parseBox: a box expression, or null and messages. */
    parseBox: string -> Parsed<BoxAst>,
    /** Parser.parseObject: a parse tree of the target language, or null and messages. */
    parseObject: string -> Parsed<Ast>,
    /** Parser.load: the stored document, or None for a ParseException. */
    load: string -> Option<Document>,
    /** SpaceOptionBinder.bind: substitutes the option values into box text. */
    bind: (string, map<string, Option<int>>) -> string,
    /** BoxFactory.box2Text: renders bound box text. */
    box2Text: string -> Rendered,
    /** SavingMessageHandler.getConcatenatedMessages. */
    concatenate: seq<string> -> string,
    /** ast.getClass().getName(). */
    className: Ast -> string,
    /** ast.toString(). */
    astToString: Ast -> string,
    /** LanguageRegistry.findLanguage(...).getName(), or None when no language is registered. */
    findLanguage: Option<string> -> Option<string>,
    /**
     * Transformer.transformToBox over the rule list, with the AST adapter of the named language's
     * binder, or None when it throws.
     */
    transformToBox: (string, seq<ItemValue>, map<string, Option<int>>, string, Ast) -> Option<string>,
    /** BoxParseController.parseBox on the whole box document, or None when it fails. */
    parseBoxDocument: string -> Option<BoxAst>,
    /** BoxInterpreter.interpret, or None when it throws. */
    interpret: BoxAst -> Option<string>)

  /** A formatting rule: its raw box text, its last rendering and that rendering's parse tree. */
  class Rule {
    var boxString: Option<string>
    var patternString: Option<string>
    var patternAst: Option<Ast>

    /** `new Rule()`: nothing is set yet. */
    constructor ()
      ensures boxString == None && patternString == None && patternAst == None
    {
      boxString, patternString, patternAst := None, None, None;
    }

    /** A rule read from a stored document. */
    constructor FromBox(box: Option<string>)
      ensures boxString == box && patternString == None && patternAst == None
    {
      boxString, patternString, patternAst := box, None, None;
    }

    function Value(): ItemValue
      reads this
    {
      RuleValue(boxString, patternString, patternAst)
    }
  }

  /** A separator: a label that groups rules visually. */
  class Separator {
    var labelText: string

    /** `new Separator()`, taken to start with an empty label. */
    constructor ()
      ensures labelText == ""
    {
      labelText := "";
    }

    constructor Labelled(l: string)
      ensures labelText == l
    {
      labelText := l;
    }
  }

  /** An element of the rule list: a Rule or a Separator object. */
  datatype Item = RuleItem(rule: Rule) | SeparatorItem(separator: Separator) {
    function Object(): object {
      match this
      case RuleItem(r) => r
      case SeparatorItem(s) => s
    }

    /** What the item hands to the formatter: a rule's fields or a separator's label. */
    function Value(): ItemValue
      reads Object()
    {
      match this
      case RuleItem(r) => r.Value()
      case SeparatorItem(s) => SeparatorValue(s.labelText)
    }
  }

  /** The objects behind a list of items. */
  function ObjectsOf(items: seq<Item>): set<object> {
    set i | i in items :: i.Object()
  }

  /** The Rule objects of a list of items. */
  function RulesOf(items: seq<Item>): set<Rule> {
    set i | i in items && i.RuleItem? :: i.rule
  }

  /** The Separator objects of a list of items. */
  function SeparatorsOf(items: seq<Item>): set<Separator> {
    set i | i in items && i.SeparatorItem? :: i.separator
  }

  /** The values of a list of items, one per item and in the items' order. */
  function ValuesOf(items: seq<Item>): (r: seq<ItemValue>)
    reads RulesOf(items), SeparatorsOf(items)
    ensures |r| == |items|
    ensures forall k :: 0 <= k < |items| ==> r[k] == items[k].Value()
  {
    if |items| == 0 then []
    else
      assert items[0] in items;
      assert forall i :: i in items[1..] ==> i in items;
      [items[0].Value()] + ValuesOf(items[1..])
  }

  /** The values of a list of items depend on nothing but the items' own objects. */
  twostate lemma ValuesOfUnchanged(items: seq<Item>)
    requires forall r :: r in RulesOf(items) ==> unchanged(r)
    requires forall s :: s in SeparatorsOf(items) ==> unchanged(s)
    ensures ValuesOf(items) == old(ValuesOf(items))
  {
    if |items| > 0 {
      assert RulesOf(items[1..]) <= RulesOf(items) && SeparatorsOf(items[1..]) <= SeparatorsOf(items);
      ValuesOfUnchanged(items[1..]);
    }
  }

  /** `map.get(name)`: the stored value, or null (None) when the name is absent. */
  function Lookup(options: map<string, Option<int>>, name: string): Option<int> {
    if name in options then options[name] else None
  }

  /** The formatting specification, shared by reference by all editor parts. */
  class Specification {
    /** The parser and the other capabilities (Java: getParser()). */
    const collab: Collaborators
    var language: Option<string>
    var rules: seq<Item>
    var spaceOptions: map<string, Option<int>>
    var example: string
    var exampleAst: Option<Ast>

    /** `new Specification(parser)`: no language, nothing else. */
    constructor Default(c: Collaborators)
      ensures collab == c && language == None && rules == [] && spaceOptions == map[]
      ensures example == "" && exampleAst == None
    {
      collab, language, rules, spaceOptions, example, exampleAst := c, None, [], map[], "", None;
    }

    /** `new Specification(langName, parser)`: the skeleton for a language. */
    constructor Named(lang: string, c: Collaborators)
      ensures collab == c && language == Some(lang) && rules == [] && spaceOptions == map[]
      ensures example == "" && exampleAst == None
    {
      collab, language, rules, spaceOptions, example, exampleAst := c, Some(lang), [], map[], "", None;
    }

    /** The specification `Parser.load` builds from a document: one fresh object per entry. */
    constructor Load(doc: Document, c: Collaborators)
      ensures collab == c && language == doc.language && spaceOptions == doc.spaceOptions
      ensures example == doc.example && exampleAst == None
      ensures |rules| == |doc.entries| && fresh(ObjectsOf(rules)) && fresh(RulesOf(rules)) && ListOps.Distinct(rules)
      ensures forall k :: 0 <= k < |rules| ==> LoadedFrom(rules[k], doc.entries[k])
    {
      var items: seq<Item> := [];
      var k := 0;
      while k < |doc.entries|
        invariant 0 <= k <= |doc.entries| && |items| == k
        invariant fresh(ObjectsOf(items)) && ListOps.Distinct(items)
        invariant forall j :: 0 <= j < k ==> LoadedFrom(items[j], doc.entries[j])
      {
        var item;
        if doc.entries[k].RuleEntry? {
          var r := new Rule.FromBox(doc.entries[k].boxString);
          item := RuleItem(r);
        } else {
          var s := new Separator.Labelled(doc.entries[k].labelText);
          item := SeparatorItem(s);
        }
        assert item !in items;
        assert ObjectsOf(items + [item]) == ObjectsOf(items) + {item.Object()};
        items := items + [item];
        k := k + 1;
      }
      assert forall i :: i in items && i.RuleItem? ==> i.rule == i.Object() && i.Object() in ObjectsOf(items);
      collab, language, rules, spaceOptions := c, doc.language, items, doc.spaceOptions;
      example, exampleAst := doc.example, None;
    }

    /** Every object of the rule list. */
    function Objects(): set<object>
      reads this`rules
    {
      ObjectsOf(rules)
    }

    /** The rule list as values, as handed to the transformer. */
    function Values(): seq<ItemValue>
      reads this`rules, RulesOf(rules), SeparatorsOf(rules)
    {
      ValuesOf(rules)
    }

    /** getSpaceOption(name). */
    function GetSpaceOption(name: string): Option<int>
      reads this`spaceOptions
    {
      Lookup(spaceOptions, name)
    }

    /** setSpaceOption(name, value): insert or overwrite. */
    method SetSpaceOption(name: string, value: Option<int>)
      modifies this`spaceOptions
      ensures spaceOptions == old(spaceOptions)[name := value]
    {
      spaceOptions := spaceOptions[name := value];
    }

    /** removeSpaceOption(name): no-op when absent. */
    method RemoveSpaceOption(name: string)
      modifies this`spaceOptions
      ensures spaceOptions == old(spaceOptions) - {name}
    {
      spaceOptions := spaceOptions - {name};
    }

    /** addRule(i, item) and addSeparator(i, item): List.add(i, item). */
    method AddRuleAt(i: nat, item: Item)
      requires i <= |rules|
      modifies this`rules
      ensures rules == old(rules)[..i] + [item] + old(rules)[i..]
    {
      rules := rules[..i] + [item] + rules[i..];
    }

    /** addRule(item): List.add(item), at the end. */
    method AddRule(item: Item)
      modifies this`rules
      ensures rules == old(rules) + [item]
    {
      rules := rules + [item];
    }

    /** removeRule(i): List.remove(i). */
    method RemoveRuleAt(i: nat)
      requires i < |rules|
      modifies this`rules
      ensures rules == old(rules)[..i] + old(rules)[i + 1..]
    {
      rules := rules[..i] + rules[i + 1..];
    }
  }

  /** `item` is the object Parser.load makes for the entry `e`. */
  predicate LoadedFrom(item: Item, e: Entry)
    reads if item.RuleItem? then {item.rule} else {}
    reads if item.SeparatorItem? then {item.separator} else {}
  {
    match item
    case RuleItem(r) =>
      e == RuleEntry(r.boxString) && r.patternString == None && r.patternAst == None
    case SeparatorItem(s) =>
      e == SeparatorEntry(s.labelText)
  }
}
