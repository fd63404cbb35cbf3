/** What one bundle item says, on its members: its name, and the columns it reads (bundles.py). */
module BundleItems {
  import opened Common
  import opened BundleJson
  import opened BundlePlan

  // ------------------------------------------------------------------ columns

  /** A "column" is given, and it is this one. */
  ghost predicate NamesColumn(text: Text, members: seq<Member>, column: string) {
    exists v :: Says(members, "column", v) && Truthy(v) && text.Of(v) == column
  }

  /** The list under `key` has it as an element. */
  ghost predicate ListsColumn(text: Text, members: seq<Member>, key: string, column: string) {
    exists items, v :: Says(members, key, Arr(items)) && v in items && text.Of(v) == column
  }

  /** A dictionary of the list under `key` names it. */
  ghost predicate UsesColumn(text: Text, members: seq<Member>, key: string, column: string) {
    exists items, inner :: Says(members, key, Arr(items)) && Obj(inner) in items && NamesColumn(text, inner, column)
  }

  ghost predicate QueryReads(text: Text, raw: seq<Member>, column: string) {
    exists query :: Says(raw, "query", Obj(query)) &&
      (ListsColumn(text, query, "dimensions", column) || UsesColumn(text, query, "measures", column)
       || UsesColumn(text, query, "filters", column))
  }

  ghost predicate ConfigReads(text: Text, raw: seq<Member>, column: string) {
    exists config :: Says(raw, "config", Obj(config)) &&
      (NamesColumn(text, config, column) || ListsColumn(text, config, "columns", column))
  }

  /** An item reads a column of its dataset: a metric in its column, its dimensions and its filters;
      a chart in its query's dimensions, measures and filters; a check in its configuration. */
  ghost predicate ReadsColumn(text: Text, e: Entry, column: string) {
    && column != "" && column != "*"
    && match e.section
       case Metrics =>
         || NamesColumn(text, e.raw, column)
         || ListsColumn(text, e.raw, "dimensions", column)
         || UsesColumn(text, e.raw, "filters", column)
       case Charts => QueryReads(text, e.raw, column)
       case Checks => ConfigReads(text, e.raw, column)
       case _ => false
  }

  lemma NamedIsTextAt(text: Text, members: seq<Member>, column: string)
    ensures column in TextAt(text, members, "column") <==> NamesColumn(text, members, column)
  {
    forall v ensures Get(members, "column") == Some(v) <==> Says(members, "column", v) {
      GetIsSaid(members, "column", v);
    }
  }

  lemma ItemsAreSaid(members: seq<Member>, key: string, v: Json)
    ensures v in ItemsAt(members, key) <==> exists items :: Says(members, key, Arr(items)) && v in items
  {
    forall items ensures Get(members, key) == Some(Arr(items)) <==> Says(members, key, Arr(items)) {
      GetIsSaid(members, key, Arr(items));
    }
  }

  lemma ListedIsTextsOf(text: Text, members: seq<Member>, key: string, column: string)
    ensures column in TextsOf(text, ItemsAt(members, key)) <==> ListsColumn(text, members, key, column)
  {
    forall v ensures v in ItemsAt(members, key) <==> exists items :: Says(members, key, Arr(items)) && v in items {
      ItemsAreSaid(members, key, v);
    }
  }

  lemma UsedIsColumnsOf(text: Text, members: seq<Member>, key: string, column: string)
    ensures column in ColumnsOf(text, ItemsAt(members, key)) <==> UsesColumn(text, members, key, column)
  {
    forall v ensures v in ItemsAt(members, key) <==> exists items :: Says(members, key, Arr(items)) && v in items {
      ItemsAreSaid(members, key, v);
    }
    forall inner ensures column in TextAt(text, inner, "column") <==> NamesColumn(text, inner, column) {
      NamedIsTextAt(text, inner, column);
    }
    if UsesColumn(text, members, key, column) {
      var items, inner :| Says(members, key, Arr(items)) && Obj(inner) in items && NamesColumn(text, inner, column);
      assert Obj(inner) in ItemsAt(members, key) && Obj(inner).members == inner;
    }
    if column in ColumnsOf(text, ItemsAt(members, key)) {
      var v :| v in ItemsAt(members, key) && v.Obj? && column in TextAt(text, v.members, "column");
      assert v == Obj(v.members) && NamesColumn(text, v.members, column);
    }
  }

  /** Nothing is listed in members that are not there. */
  lemma NothingListed(text: Text, key: string, column: string)
    ensures !ListsColumn(text, [], key, column) && !UsesColumn(text, [], key, column) && !NamesColumn(text, [], column)
  {
  }

  lemma MembersAreSaid(members: seq<Member>, key: string)
    ensures forall inner :: Says(members, key, Obj(inner)) ==> MembersAt(members, key) == inner
    ensures MembersAt(members, key) != [] ==> Says(members, key, Obj(MembersAt(members, key)))
  {
    forall inner ensures Get(members, key) == Some(Obj(inner)) <==> Says(members, key, Obj(inner)) {
      GetIsSaid(members, key, Obj(inner));
    }
  }

  lemma QueryReadsAt(text: Text, raw: seq<Member>, column: string)
    ensures QueryReads(text, raw, column) <==>
      var query := MembersAt(raw, "query");
      ListsColumn(text, query, "dimensions", column) || UsesColumn(text, query, "measures", column)
      || UsesColumn(text, query, "filters", column)
  {
    MembersAreSaid(raw, "query");
    NothingListed(text, "dimensions", column);
    NothingListed(text, "measures", column);
    NothingListed(text, "filters", column);
  }

  lemma ConfigReadsAt(text: Text, raw: seq<Member>, column: string)
    ensures ConfigReads(text, raw, column) <==>
      var config := MembersAt(raw, "config");
      NamesColumn(text, config, column) || ListsColumn(text, config, "columns", column)
  {
    MembersAreSaid(raw, "config");
    NothingListed(text, "columns", column);
  }

  /** The columns an item is checked for are exactly those it reads. */
  lemma ColumnsAreRead(text: Text, e: Entry, column: string)
    ensures column in ColumnsUsed(text, e.section, e.raw) <==> ReadsColumn(text, e, column)
  {
    match e.section
    case Metrics =>
      NamedIsTextAt(text, e.raw, column);
      ListedIsTextsOf(text, e.raw, "dimensions", column);
      UsedIsColumnsOf(text, e.raw, "filters", column);
    case Charts =>
      var query := MembersAt(e.raw, "query");
      QueryReadsAt(text, e.raw, column);
      ListedIsTextsOf(text, query, "dimensions", column);
      UsedIsColumnsOf(text, query, "measures", column);
      UsedIsColumnsOf(text, query, "filters", column);
    case Checks =>
      var config := MembersAt(e.raw, "config");
      ConfigReadsAt(text, e.raw, column);
      NamedIsTextAt(text, config, column);
      ListedIsTextsOf(text, config, "columns", column);
    case _ =>
  }

  // --------------------------------------------------------------------- names

  /** The item's name: what stands under "name", stripped; anything that counts as nothing is no name. */
  ghost predicate IsNamed(text: Text, e: Entry, name: string) {
    || (exists v :: Says(e.raw, "name", v) && Truthy(v) && name == text.strip(text.Of(v)))
    || ((forall v :: Says(e.raw, "name", v) ==> !Truthy(v)) && name == text.strip(""))
  }

  lemma NameIsSaid(text: Text, e: Entry, name: string)
    ensures EntryName(text, e) == name <==> IsNamed(text, e, name)
  {
    forall v ensures Get(e.raw, "name") == Some(v) <==> Says(e.raw, "name", v) {
      GetIsSaid(e.raw, "name", v);
    }
  }

  /** The target has a thing of the item's kind and, but for case, of its name. */
  ghost predicate AlreadyHas(rq: Request, e: Entry) {
    exists n :: n in rq.target.listing(e.section.Kind()) && rq.text.fold(n.name) == rq.text.fold(EntryName(rq.text, e))
  }

  /** References are looked up for exactly the items that are named and new. */
  lemma ConsideredIsNew(rq: Request, e: Entry)
    ensures Considered(rq, e) <==> !IsNamed(rq.text, e, "") && !AlreadyHas(rq, e)
  {
    NameIsSaid(rq.text, e, "");
  }

  /** How a dictionary spells its name: as it stands there, blanks and case included. */
  ghost predicate IsSpelled(text: Text, members: seq<Member>, name: string) {
    || (exists v :: Says(members, "name", v) && name == text.Of(v))
    || ((forall v :: !Says(members, "name", v)) && name == "")
  }

  lemma SpellingIsSaid(text: Text, members: seq<Member>, name: string)
    ensures SpelledName(text, members) == name <==> IsSpelled(text, members, name)
  {
    forall v ensures Get(members, "name") == Some(v) <==> Says(members, "name", v) {
      GetIsSaid(members, "name", v);
    }
  }

  /** A name counts as the bundle's own when an item of a section others refer to is so spelled but
      for case, whatever becomes of the item. */
  lemma BundleHasName(rq: Request, key: Key)
    ensures key in MadeByBundle(rq) <==> exists section, raw, name ::
      && section in {Metrics, Recipes, Checks, Charts} && raw in rq.bundle.Of(section) && section.Kind() == key.0
      && IsSpelled(rq.text, raw, name) && rq.text.fold(name) == key.1
  {
    forall raw, name ensures SpelledName(rq.text, raw) == name <==> IsSpelled(rq.text, raw, name) {
      SpellingIsSaid(rq.text, raw, name);
    }
    if key in MadeByBundle(rq) {
      var section, raw :| MakesKind(section) && raw in rq.bundle.Of(section)
        && rq.text.KeyOf(section.Kind(), SpelledName(rq.text, raw)) == key;
      assert IsSpelled(rq.text, raw, SpelledName(rq.text, raw));
    }
  }

  /** A choice is made for a name by its kind and its exact spelling; an empty one is none. */
  lemma ChoiceIsMapped(rq: Request, kind: string, name: string, chosen: string)
    ensures ChosenFor(rq, kind, name) == Some(chosen) <==>
      chosen != "" && kind + [':'] + name in rq.mapping && rq.mapping[kind + [':'] + name] == chosen
  {
    assert ":" == [':'];
  }
}
