/** The alias bindings of an installation, as a map and as the text of the configuration. */
module ConfigBindings {
  import opened Wrappers
  import opened Characters
  import opened ConfigText
  import opened ConfigRoundTrip
  import opened InstallTransaction

  // ----- the map a configuration stands for -----

  /** What a list of entries binds: the first entry for a name counts. */
  function Bindings(known: seq<Alias>): (r: map<string, string>) {
    if known == [] then map[] else Bindings(known[1..])[known[0].name := known[0].path]
  }

  function FoundIn(bindings: map<string, string>, name: string): (r: Option<string>) {
    if name in bindings then Some(bindings[name]) else None
  }

  lemma {:induction false} BindingsAre(known: seq<Alias>, name: string)
    ensures FoundIn(Bindings(known), name) == Lookup(known, name)
    decreases |known|
  {
    if known != [] {
      BindingsAre(known[1..], name);
    }
  }

  /** Scanning the text for an alias, whichever it is, reads what the map binds. */
  ghost predicate Reads(text: string, bindings: map<string, string>) {
    var place := FindTable(text);
    && place.Some? && place.value.open != []
    && forall name :: FindAlias(place.value.open[1..], |place.value.close|, name) == Entered(FoundIn(bindings, name))
  }

  lemma GeneratedReads(known: seq<Alias>)
    ensures Reads(Generated(known), Bindings(known))
  {
    hide FindTable, FindAlias, Generated, TableText, Closing, Lookup, Bindings;
    TableIsFound(known);
    TableTextStarts(known);
    forall name
      ensures FindAlias(TableText(known)[1..], |Closing()|, name) == Entered(FoundIn(Bindings(known), name))
    {
      AliasIsFound(known, name);
      BindingsAre(known, name);
    }
  }

  // ----- one installation -----

  /** The entries an installation asks for. */
  function Requests(names: seq<string>): (r: seq<Alias>)
    ensures |r| == |names|
  {
    seq(|names|, i requires 0 <= i < |names| => Alias(names[i], AliasPath(names[i])))
  }

  predicate Permitted(safePath: string -> bool, names: seq<string>) {
    forall i :: 0 <= i < |names| ==> IsSafeName(names[i]) && safePath(AliasPath(names[i]))
  }

  predicate AllCanBind(config: map<string, string>, names: seq<string>) {
    forall i :: 0 <= i < |names| ==> CanBind(config, names[i])
  }

  /** What binding the names makes of the bindings. */
  function Bound(config: map<string, string>, names: seq<string>): (r: map<string, string>) {
    config + map n | n in names :: AliasPath(n)
  }

  lemma RequestsAreCompatible(safePath: string -> bool, known: seq<Alias>, names: seq<string>)
    ensures AllCompatible(safePath, known, Requests(names)) <==>
      Permitted(safePath, names) && AllCanBind(Bindings(known), names)
  {
    hide IsSafeName, Lookup, Bindings, AliasPath;
    var wanted := Requests(names);
    forall i | 0 <= i < |names|
      ensures Compatible(safePath, known, wanted[i]) <==>
        IsSafeName(names[i]) && safePath(AliasPath(names[i])) && CanBind(Bindings(known), names[i])
    {
      assert wanted[i] == Alias(names[i], AliasPath(names[i]));
      BindingsAre(known, names[i]);
    }
    if Permitted(safePath, names) && AllCanBind(Bindings(known), names) {
      assert AllCompatible(safePath, known, wanted);
    }
    if AllCompatible(safePath, known, wanted) {
      assert forall i :: 0 <= i < |names| ==> Compatible(safePath, known, wanted[i]);
    }
  }

  lemma {:induction false} LookupBehind(a: seq<Alias>, b: seq<Alias>, name: string)
    ensures Lookup(a + b, name) == if Lookup(a, name).Some? then Lookup(a, name) else Lookup(b, name)
    decreases |a|
  {
    if a == [] {
      assert a + b == b;
    } else {
      assert (a + b)[1..] == a[1..] + b;
      LookupBehind(a[1..], b, name);
    }
  }

  /** A name the table does not have is looked up among the new entries as among all requests. */
  lemma {:induction false} LookupFresh(known: seq<Alias>, wanted: seq<Alias>, name: string)
    requires Lookup(known, name).None?
    ensures Lookup(Fresh(known, wanted), name) == Lookup(wanted, name)
    decreases |wanted|
  {
    if wanted != [] {
      var init, last := wanted[..|wanted| - 1], wanted[|wanted| - 1];
      assert wanted == init + [last];
      LookupFresh(known, init, name);
      LookupBehind(init, [last], name);
      LookupBehind(Fresh(known, init), [last], name);
      assert Fresh(known, init) + [] == Fresh(known, init);
      assert Lookup([last], name).Some? <==> last.name == name;
    }
  }

  lemma {:induction false} LookupRequest(names: seq<string>, name: string)
    ensures Lookup(Requests(names), name) == if name in names then Some(AliasPath(name)) else None
    decreases |names|
  {
    hide AliasPath;
    if names != [] {
      assert Requests(names)[1..] == Requests(names[1..]);
      assert names == [names[0]] + names[1..];
      LookupRequest(names[1..], name);
    }
  }

  lemma BoundBindings(known: seq<Alias>, names: seq<string>)
    requires AllCanBind(Bindings(known), names)
    ensures Bindings(known + Fresh(known, Requests(names))) == Bound(Bindings(known), names)
  {
    hide Lookup, Fresh, Bindings, AliasPath, Requests;
    var wanted := Requests(names);
    var now, all := Bindings(known + Fresh(known, wanted)), Bound(Bindings(known), names);
    forall name ensures FoundIn(now, name) == FoundIn(all, name) {
      BindingsAre(known + Fresh(known, wanted), name);
      BindingsAre(known, name);
      LookupBehind(known, Fresh(known, wanted), name);
      LookupRequest(names, name);
      if Lookup(known, name).None? {
        LookupFresh(known, wanted, name);
      }
    }
    SameBindings(now, all);
  }

  lemma SameBindings(a: map<string, string>, b: map<string, string>)
    requires forall name :: FoundIn(a, name) == FoundIn(b, name)
    ensures a == b
  {
    forall name ensures (name in a <==> name in b) && (name in a ==> a[name] == b[name]) {
      assert FoundIn(a, name) == FoundIn(b, name);
    }
  }

  lemma NothingFresh(known: seq<Alias>, names: seq<string>)
    ensures Fresh(known, Requests(names)) == [] <==> forall n :: n in names ==> n in Bindings(known)
  {
    hide Bindings, Lookup, Fresh, AliasPath, Requests;
    var wanted := Requests(names);
    if Fresh(known, wanted) == [] {
      forall n | n in names ensures n in Bindings(known) {
        BindingsAre(known, n);
        LookupRequest(names, n);
        if Lookup(known, n).None? {
          LookupFresh(known, wanted, n);
          LookupNothing(n);
        }
      }
    } else if forall n :: n in names ==> n in Bindings(known) {
      forall i | 0 <= i < |wanted| ensures Lookup(known, wanted[i].name).Some? {
        RequestAt(names, i);
        BindingsAre(known, names[i]);
      }
      NoneFresh(known, wanted);
    }
  }

  lemma LookupNothing(name: string)
    ensures Lookup([], name).None?
  {
  }

  lemma RequestAt(names: seq<string>, i: nat)
    requires i < |names|
    ensures Requests(names)[i] == Alias(names[i], AliasPath(names[i]))
  {
  }

  lemma PermittedIsClean(safePath: string -> bool, names: seq<string>)
    requires Permitted(safePath, names)
    ensures Clean(Requests(names))
  {
    forall i | 0 <= i < |names| ensures NoReturn(names[i]) && NoReturn(AliasPath(names[i])) {
      assert forall j :: 0 <= j < |names[i]| ==> IsSafeCharacter(names[i][j]);
    }
  }

  lemma {:induction false} FreshIsClean(known: seq<Alias>, wanted: seq<Alias>)
    requires Clean(wanted)
    ensures Clean(Fresh(known, wanted))
    decreases |wanted|
  {
    hide Lookup, NoReturn;
    if wanted != [] {
      FreshIsClean(known, wanted[..|wanted| - 1]);
    }
  }

  /** Binding names in a generated configuration: the update is refused exactly when a name is not
      permitted or bound elsewhere. Otherwise its text is generated too, stands for the old bindings
      with the names bound to their modules, and is written only when one of them is new. */
  lemma BindingIsUpdate(safePath: string -> bool, known: seq<Alias>, names: seq<string>)
    requires Clean(known)
    ensures var r := UpdateAliases(safePath, Generated(known), Requests(names));
      var more := known + Fresh(known, Requests(names));
      if !Permitted(safePath, names) || !AllCanBind(Bindings(known), names) then r == Refused
      else
        && r == Updated(Generated(more), exists n :: n in names && n !in Bindings(known))
        && Clean(more) && Bindings(more) == Bound(Bindings(known), names)
  {
    hide UpdateAliases, Generated, Fresh, Bindings, AllCompatible, Clean, Permitted, AllCanBind, Bound, Requests;
    UpdateIsRegenerate(safePath, known, Requests(names));
    RequestsAreCompatible(safePath, known, names);
    NothingFresh(known, names);
    if Permitted(safePath, names) && AllCanBind(Bindings(known), names) {
      BoundBindings(known, names);
      PermittedIsClean(safePath, names);
      FreshIsClean(known, Requests(names));
      CleanTogether(known, Fresh(known, Requests(names)));
    }
  }

  lemma CleanTogether(a: seq<Alias>, b: seq<Alias>)
    requires Clean(a) && Clean(b)
    ensures Clean(a + b)
  {
    hide NoReturn;
  }

  // ----- every sequence of installations -----

  /** The configuration file after an installation: generated if there was none, otherwise updated, and
      left alone when nothing is bound or the update is refused. */
  function BindText(safePath: string -> bool, text: Option<string>, names: seq<string>): (r: Option<string>) {
    if names == [] then text
    else if text.None? then if Permitted(safePath, names) then Some(Generated(Requests(names))) else None
    else
      match UpdateAliases(safePath, text.value, Requests(names))
      case Refused => text
      case Updated(content, _) => Some(content)
  }

  function BindMap(safePath: string -> bool, config: map<string, string>, names: seq<string>)
    : (r: map<string, string>)
  {
    if Permitted(safePath, names) && AllCanBind(config, names) then Bound(config, names) else config
  }

  function TextAfter(safePath: string -> bool, runs: seq<seq<string>>): (r: Option<string>) {
    if runs == [] then None
    else BindText(safePath, TextAfter(safePath, runs[..|runs| - 1]), runs[|runs| - 1])
  }

  function MapAfter(safePath: string -> bool, runs: seq<seq<string>>): (r: map<string, string>) {
    if runs == [] then map[]
    else BindMap(safePath, MapAfter(safePath, runs[..|runs| - 1]), runs[|runs| - 1])
  }

  /** The text is missing and nothing is bound, or it is generated from entries that bind the map. */
  ghost predicate Represents(text: Option<string>, config: map<string, string>) {
    if text.None? then config == map[]
    else exists known :: Clean(known) && text.value == Generated(known) && Bindings(known) == config
  }

  lemma BindKeeps(safePath: string -> bool, text: Option<string>, config: map<string, string>, names: seq<string>)
    requires Represents(text, config)
    ensures Represents(BindText(safePath, text, names), BindMap(safePath, config, names))
  {
    hide UpdateAliases, Generated, Bindings, Clean, Permitted, AllCanBind, Requests;
    if names == [] {
      assert Bound(config, names) == config;
    } else if text.None? {
      NothingBound(names);
      if Permitted(safePath, names) {
        PermittedIsClean(safePath, names);
        GeneratedBinds(names);
      }
    } else {
      hide Bound;
      var known :| Clean(known) && text.value == Generated(known) && Bindings(known) == config;
      BindingIsUpdate(safePath, known, names);
    }
  }

  lemma NothingBound(names: seq<string>)
    ensures AllCanBind(map[], names)
  {
  }

  lemma GeneratedBinds(names: seq<string>)
    ensures Bindings(Requests(names)) == Bound(map[], names)
  {
    hide AliasPath, Bindings, Lookup, Requests;
    forall name ensures FoundIn(Bindings(Requests(names)), name) == FoundIn(Bound(map[], names), name) {
      BindingsAre(Requests(names), name);
      LookupRequest(names, name);
    }
    SameBindings(Bindings(Requests(names)), Bound(map[], names));
  }

  /** Whatever installations have run since there was no configuration: reading its text gives the
      bindings that the installations have made, and no others. */
  lemma {:induction false} InstallationsAreRead(safePath: string -> bool, runs: seq<seq<string>>)
    ensures var text, config := TextAfter(safePath, runs), MapAfter(safePath, runs);
      Represents(text, config) && if text.None? then config == map[] else Reads(text.value, config)
    decreases |runs|
  {
    hide BindText, BindMap, Generated, Reads, Bindings, Clean;
    if runs != [] {
      InstallationsAreRead(safePath, runs[..|runs| - 1]);
      BindKeeps(safePath, TextAfter(safePath, runs[..|runs| - 1]), MapAfter(safePath, runs[..|runs| - 1]),
        runs[|runs| - 1]);
    }
    var text, config := TextAfter(safePath, runs), MapAfter(safePath, runs);
    if text.Some? {
      var known :| Clean(known) && text.value == Generated(known) && Bindings(known) == config;
      GeneratedReads(known);
    }
  }
}
