/**
 * The parser registry: a map from parser name to parser object, filled by
 * the service's constructor, and the dispatch of a page to the parser
 * registered under a key.
 *
 * A parser object is modelled by what the registry inspects: its `name`,
 * whether it has a `parse` function (and which one), and whether it has a
 * `provide` function, with what that returns (null, or a list of further
 * parser objects).
 */
module ParserRegistry {
  import opened Wrappers
  import opened Document
  import opened Types
  import Clubhouse
  import Owners
  import Scoreboard

  /** The `parse` functions a parser object can carry. */
  datatype ParseFn = ClubhouseParse | OwnersParse | ScoreboardParse

  /** `provide` is `None` when the object has no `provide`, `Some(None)`
      when it returns null, and `Some(Some(children))` otherwise. */
  datatype Parser = Parser(name: string, parse: Option<ParseFn>, provide: Option<Option<seq<Parser>>>)

  /** What a parse returns, by parser. */
  datatype Output =
    | RosterPage(roster: Option<Roster>)
    | OwnersPage(teams: Option<seq<Team>>)
    | ScoreboardPage(matchups: Option<seq<Matchup>>)

  const ClubhouseParser: Parser := Parser(Clubhouse.Name, Some(ClubhouseParse), None)
  const OwnersParser: Parser := Parser(Owners.Name, Some(OwnersParse), None)
  const ScoreboardParser: Parser := Parser(Scoreboard.Name, Some(ScoreboardParse), None)

  // ---------------------------------------------------------------------
  // Running one parser

  function RunParse(fn: ParseFn, doc: Scope): Result<Output>
  {
    match fn
    case ClubhouseParse =>
      (match Clubhouse.ParseScope(doc)
       case Err(f) => Err(f)
       case Ok(roster) => Ok(RosterPage(roster)))
    case OwnersParse => Ok(OwnersPage(Owners.ParseScope(doc)))
    case ScoreboardParse =>
      (match Scoreboard.ParseScope(doc)
       case Err(f) => Err(f)
       case Ok(matchups) => Ok(ScoreboardPage(matchups)))
  }

  /** `parser.parse(context)` for one of the three parse functions. */
  method Invoke(fn: ParseFn, doc: Scope) returns (r: Result<Output>)
    ensures r == RunParse(fn, doc)
  {
    match fn
    case ClubhouseParse =>
      var roster := Clubhouse.Parse(doc);
      r := if roster.Err? then Err(roster.fault) else Ok(RosterPage(roster.value));
    case OwnersParse =>
      var teams := Owners.Parse(doc);
      r := Ok(OwnersPage(teams));
    case ScoreboardParse =>
      var matchups := Scoreboard.Parse(doc);
      r := if matchups.Err? then Err(matchups.fault) else Ok(ScoreboardPage(matchups.value));
  }

  /** Looking `key` up in `parsers` and running what is found: an unknown
      key, or an entry without `parse`, is a fault. */
  function Dispatch(parsers: map<string, Parser>, key: string, doc: Scope): (r: Result<Output>)
    ensures key !in parsers ==> r == Err(UnknownParser(key))
    ensures key in parsers && parsers[key].parse.None? ==> r == Err(NotAParser(key))
  {
    if key !in parsers then Err(UnknownParser(key))
    else
      match parsers[key].parse
      case None => Err(NotAParser(key))
      case Some(fn) => RunParse(fn, doc)
  }

  // ---------------------------------------------------------------------
  // Registration

  /** The names of a list of parser objects. */
  function Names(ps: seq<Parser>): (names: set<string>)
    ensures forall i :: 0 <= i < |ps| ==> ps[i].name in names
    ensures forall k :: k in names ==> exists i :: 0 <= i < |ps| && ps[i].name == k
  {
    set i | 0 <= i < |ps| :: ps[i].name
  }

  /** `instances.forEach(child => parsers.set(child.name, child))`. */
  function SetEach(m: map<string, Parser>, ps: seq<Parser>): (r: map<string, Parser>)
    ensures r.Keys == m.Keys + Names(ps)
    ensures forall k :: k in m && k !in Names(ps) ==> r[k] == m[k]
  {
    if ps == [] then m
    else
      var init := ps[..|ps| - 1];
      var last := ps[|ps| - 1];
      assert Names(ps) == Names(init) + {last.name} by {
        forall k | k in Names(ps) ensures k in Names(init) + {last.name} {
          var i :| 0 <= i < |ps| && ps[i].name == k;
          if i < |ps| - 1 {
            assert init[i] == ps[i];
          }
        }
        forall k | k in Names(init) ensures k in Names(ps) {
          var i :| 0 <= i < |init| && init[i].name == k;
          assert ps[i] == init[i];
        }
      }
      SetEach(m, init)[last.name := last]
  }

  /** Registering one more object of a list. */
  lemma SetEachStep(m: map<string, Parser>, ps: seq<Parser>, i: nat)
    requires i < |ps|
    ensures SetEach(m, ps[..i + 1]) == SetEach(m, ps[..i])[ps[i].name := ps[i]]
  {
    assert ps[..i + 1][..i] == ps[..i];
  }

  /** `addParsers` on one parser object: it is registered under its name
      when it has `parse` and a non-empty name; then, when it has `provide`
      and that returns a list, every object of the list is registered
      under its own name, unchecked. */
  function Register(m: map<string, Parser>, p: Parser): (r: map<string, Parser>)
    ensures m.Keys <= r.Keys
  {
    var own := if p.parse.Some? && p.name != "" then m[p.name := p] else m;
    match p.provide
    case Some(Some(children)) => SetEach(own, children)
    case _ => own
  }

  /** Registration of a list: a later object with the same name replaces an
      earlier one. */
  lemma {:induction false} SetEachLastWins(m: map<string, Parser>, ps: seq<Parser>, i: nat)
    requires i < |ps|
    requires forall j :: i < j < |ps| ==> ps[j].name != ps[i].name
    ensures SetEach(m, ps)[ps[i].name] == ps[i]
  {
    if i < |ps| - 1 {
      var init := ps[..|ps| - 1];
      assert init[i] == ps[i];
      SetEachLastWins(m, init, i);
    }
  }

  /** A parser object without `provide`, or whose `provide` returns null,
      registers at most itself. */
  lemma RegisterWithoutChildren(m: map<string, Parser>, p: Parser)
    requires !(p.provide.Some? && p.provide.value.Some?)
    ensures p.parse.Some? && p.name != "" ==> Register(m, p) == m[p.name := p]
    ensures p.parse.None? || p.name == "" ==> Register(m, p) == m
  {
  }

  /** Which keys a registration adds, and that nothing registered before
      under another key changes. */
  lemma RegisterKeys(m: map<string, Parser>, p: Parser)
    ensures Register(m, p).Keys ==
      m.Keys
      + (if p.parse.Some? && p.name != "" then {p.name} else {})
      + (if p.provide.Some? && p.provide.value.Some? then Names(p.provide.value.value) else {})
    ensures forall k ::
              k in m && k != p.name && !(p.provide.Some? && p.provide.value.Some? && k in Names(p.provide.value.value))
              ==> Register(m, p)[k] == m[k]
  {
  }

  /** What the constructor leaves in the map. */
  function Builtin(): map<string, Parser>
  {
    Register(Register(Register(map[], ClubhouseParser), OwnersParser), ScoreboardParser)
  }

  lemma BuiltinContents()
    ensures Builtin().Keys == {"clubhouse", "owners", "scoreboard"}
    ensures Builtin()["clubhouse"] == ClubhouseParser
    ensures Builtin()["owners"] == OwnersParser
    ensures Builtin()["scoreboard"] == ScoreboardParser
  {
  }

  /** With the built-in map, each of the three keys runs its own parser and
      every other key is a fault. */
  lemma BuiltinDispatch(key: string, doc: Scope)
    ensures key == "clubhouse" ==> Dispatch(Builtin(), key, doc) == RunParse(ClubhouseParse, doc)
    ensures key == "owners" ==> Dispatch(Builtin(), key, doc) == Ok(OwnersPage(Owners.ParseScope(doc)))
    ensures key == "scoreboard" ==> Dispatch(Builtin(), key, doc) == RunParse(ScoreboardParse, doc)
    ensures key !in {"clubhouse", "owners", "scoreboard"} ==> Dispatch(Builtin(), key, doc) == Err(UnknownParser(key))
  {
    BuiltinContents();
  }

  // ---------------------------------------------------------------------
  // The service

  class ParserService {
    var parsers: map<string, Parser>

    /** Registers the clubhouse, owners and scoreboard parsers. */
    constructor()
      ensures parsers == Builtin()
    {
      parsers := map[];
      new;
      AddParsers(ClubhouseParser);
      AddParsers(OwnersParser);
      AddParsers(ScoreboardParser);
    }

    /** `addParsers`, given the parser object its module provides. */
    method AddParsers(instance: Parser)
      modifies this
      ensures parsers == Register(old(parsers), instance)
    {
      if instance.parse.Some? && instance.name != "" {
        parsers := parsers[instance.name := instance];
      }
      if instance.provide.Some? && instance.provide.value.Some? {
        var children := instance.provide.value.value;
        ghost var own := parsers;
        var i := 0;
        while i < |children|
          invariant 0 <= i <= |children|
          invariant parsers == SetEach(own, children[..i])
        {
          SetEachStep(own, children, i);
          parsers := parsers[children[i].name := children[i]];
          i := i + 1;
        }
        assert children[..i] == children;
      }
    }

    /** `getParser`: the object registered under `key`, if any. */
    function GetParser(key: string): (p: Option<Parser>)
      reads this
      ensures p.Some? <==> key in parsers
      ensures p.Some? ==> p.value == parsers[key]
    {
      if key in parsers then Some(parsers[key]) else None
    }

    /** `parseHtmlContent`, given the loaded document. */
    method ParseHtmlContent(key: string, doc: Scope) returns (r: Result<Output>)
      ensures r == Dispatch(parsers, key, doc)
    {
      var parser := GetParser(key);
      if parser.None? {
        return Err(UnknownParser(key));
      }
      match parser.value.parse
      case None =>
        r := Err(NotAParser(key));
      case Some(fn) =>
        r := Invoke(fn, doc);
    }
  }

  /** What `parseFragment` returns: nothing, unless the parse faults. */
  function FragmentOutcome(parsers: map<string, Parser>, key: string, fragment: Scope): (r: Result<()>)
  {
    match Dispatch(parsers, key, fragment)
    case Err(f) => Err(f)
    case Ok(_) => Ok(())
  }

  /** With the built-in map, a fragment parse under an unknown key is a
      fault naming the key, an owners fragment always succeeds, and a
      clubhouse or scoreboard fragment fails exactly when its parser does. */
  lemma BuiltinFragment(key: string, fragment: Scope)
    ensures key !in {"clubhouse", "owners", "scoreboard"} ==>
      FragmentOutcome(Builtin(), key, fragment) == Err(UnknownParser(key))
    ensures key == "owners" ==> FragmentOutcome(Builtin(), key, fragment) == Ok(())
    ensures key == "clubhouse" ==>
      (FragmentOutcome(Builtin(), key, fragment).Err? <==> Clubhouse.ParseScope(fragment).Err?)
    ensures key == "scoreboard" ==>
      (FragmentOutcome(Builtin(), key, fragment).Err? <==> Scoreboard.ParseScope(fragment).Err?)
  {
  }

  /** The context handed to a parser: the document it parses and the
      service it can ask for fragment parsers. */
  class ParseContext {
    const selector: Scope
    const parent: ParserService

    constructor(selector: Scope, parent: ParserService)
      ensures this.selector == selector && this.parent == parent
    {
      this.selector := selector;
      this.parent := parent;
    }

    /** `parseFragment`: runs the parser registered under `key` on
        `fragment`, in a new context with the same parent, and drops what
        it returns. A missing key or a missing `parse` is a fault. */
    method ParseFragment(key: string, fragment: Scope) returns (r: Result<()>)
      ensures r == FragmentOutcome(parent.parsers, key, fragment)
    {
      var parser := parent.GetParser(key);
      if parser.None? {
        return Err(UnknownParser(key));
      }
      match parser.value.parse
      case None =>
        r := Err(NotAParser(key));
      case Some(fn) =>
        var child := new ParseContext(fragment, parent);
        var out := Invoke(fn, child.selector);
        r := if out.Err? then Err(out.fault) else Ok(());
    }
  }
}
