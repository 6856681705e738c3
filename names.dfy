/**
 * The names an export uses (web tool): `build_default_name_map` and the
 * override merge of `_resolve_export_payload`.
 */
module Export {
  import opened Wrappers
  import opened Text
  import opened Convention
  import opened Resolver

  /** `{e.address: e.generated_name for e in entries}`: a later entry with the same address wins. */
  function DefaultNames(entries: seq<Entry>): map<string, string>
  {
    if entries == [] then map[]
    else
      var last := entries[|entries| - 1];
      DefaultNames(entries[..|entries| - 1])[last.address := last.generatedName]
  }

  /**
   * The keys are exactly the entries' addresses, and each address maps to
   * the generated name of the last entry that has it.
   */
  lemma {:induction false} DefaultNamesSpec(entries: seq<Entry>)
    ensures forall a :: a in DefaultNames(entries) <==> exists i :: 0 <= i < |entries| && entries[i].address == a
    ensures forall i :: (0 <= i < |entries| && (forall j :: i < j < |entries| ==> entries[j].address != entries[i].address)
      ==> DefaultNames(entries)[entries[i].address] == entries[i].generatedName)
  {
    if entries != [] {
      var init := entries[..|entries| - 1];
      DefaultNamesSpec(init);
      forall a | exists i :: 0 <= i < |entries| && entries[i].address == a
        ensures a in DefaultNames(entries)
      {
        var i :| 0 <= i < |entries| && entries[i].address == a;
        if i < |init| {
          assert init[i] == entries[i];
        }
      }
      forall a | a in DefaultNames(entries)
        ensures exists i :: 0 <= i < |entries| && entries[i].address == a
      {
        if a != entries[|entries| - 1].address {
          var i :| 0 <= i < |init| && init[i].address == a;
          assert entries[i] == init[i];
        }
      }
      forall i | 0 <= i < |entries| && (forall j :: i < j < |entries| ==> entries[j].address != entries[i].address)
        ensures DefaultNames(entries)[entries[i].address] == entries[i].generatedName
      {
        if i < |init| {
          assert init[i] == entries[i];
          assert forall j :: i < j < |init| ==> init[j] == entries[j];
        }
      }
    }
  }

  /** A JSON value as the request decoder hands it over: only strings matter here. */
  datatype Json = JString(s: string) | JOther

  /** The `names` member of the request: an object, or anything else (ignored). */
  datatype NamesPayload = JObject(members: map<string, Json>) | NotAnObject

  /** An override is used when its value is a string that is not blank. */
  predicate Accepted(v: Json) { v.JString? && Strip(v.s) != "" }

  function AcceptedKeys(members: map<string, Json>): set<string>
  {
    set k | k in members && Accepted(members[k])
  }

  /** The defaults with every accepted override applied, stored stripped. */
  function Overlay(defaults: map<string, string>, members: map<string, Json>): map<string, string>
  {
    map k | k in defaults.Keys + AcceptedKeys(members)
      :: if k in AcceptedKeys(members) then Strip(members[k].s) else defaults[k]
  }

  /** `names` is the defaults with the accepted overrides among `done` applied. */
  ghost predicate OverlaidOn(names: map<string, string>, defaults: map<string, string>, members: map<string, Json>, done: set<string>)
  {
    KeysOverlaid(names, defaults, members, done) && ValuesOverlaid(names, defaults, members, done)
  }

  ghost predicate KeysOverlaid(names: map<string, string>, defaults: map<string, string>, members: map<string, Json>, done: set<string>)
  {
    forall a :: a in names <==> a in defaults || (a in done && a in members && Accepted(members[a]))
  }

  ghost predicate ValuesOverlaid(names: map<string, string>, defaults: map<string, string>, members: map<string, Json>, done: set<string>)
  {
    forall a :: a in names ==>
      if a in done && a in members && Accepted(members[a]) then names[a] == Strip(members[a].s)
      else a in defaults && names[a] == defaults[a]
  }

  lemma OverlaidAcceptKeys(names: map<string, string>, defaults: map<string, string>, members: map<string, Json>, done: set<string>, k: string)
    requires KeysOverlaid(names, defaults, members, done) && k in members && k !in done && Accepted(members[k])
    ensures KeysOverlaid(names[k := Strip(members[k].s)], defaults, members, done + {k})
  {
    var d, n := done + {k}, names[k := Strip(members[k].s)];
    forall a
      ensures a in n <==> a in defaults || (a in d && a in members && Accepted(members[a]))
    {
      if a != k {
        assert a in d <==> a in done;
      }
    }
  }

  lemma OverlaidAcceptValues(names: map<string, string>, defaults: map<string, string>, members: map<string, Json>, done: set<string>, k: string)
    requires ValuesOverlaid(names, defaults, members, done) && k in members && k !in done && Accepted(members[k])
    ensures ValuesOverlaid(names[k := Strip(members[k].s)], defaults, members, done + {k})
  {
    var d, n := done + {k}, names[k := Strip(members[k].s)];
    forall a | a in n
      ensures if a in d && a in members && Accepted(members[a]) then n[a] == Strip(members[a].s)
        else a in defaults && n[a] == defaults[a]
    {
      if a != k {
        assert a in d <==> a in done;
      }
    }
  }

  lemma OverlaidReject(names: map<string, string>, defaults: map<string, string>, members: map<string, Json>, done: set<string>, k: string)
    requires OverlaidOn(names, defaults, members, done) && k in members && k !in done && !Accepted(members[k])
    ensures OverlaidOn(names, defaults, members, done + {k})
  {
    var d := done + {k};
    forall a
      ensures a in names <==> a in defaults || (a in d && a in members && Accepted(members[a]))
    {
      if a != k {
        assert a in d <==> a in done;
      }
    }
  }

  lemma OverlaidOnAll(names: map<string, string>, defaults: map<string, string>, members: map<string, Json>)
    requires OverlaidOn(names, defaults, members, members.Keys)
    ensures names == Overlay(defaults, members)
  {
    var o := Overlay(defaults, members);
    assert forall a :: a in names <==> a in o;
  }

  /** The map an export renames with. */
  function ResolvedNames(entries: seq<Entry>, payload: NamesPayload): map<string, string>
  {
    match payload
    case NotAnObject => DefaultNames(entries)
    case JObject(members) => Overlay(DefaultNames(entries), members)
  }

  /** The merge loop over the items of the `names` object. */
  method MergeNames(entries: seq<Entry>, payload: NamesPayload) returns (names: map<string, string>)
    ensures names == ResolvedNames(entries, payload)
  {
    var defaults := DefaultNames(entries);
    names := defaults;
    if payload.JObject? {
      var members := payload.members;
      var todo := members.Keys;
      while todo != {}
        invariant todo <= members.Keys
        invariant OverlaidOn(names, defaults, members, members.Keys - todo)
        decreases |todo|
      {
        var k :| k in todo;
        var v := members[k];
        assert members.Keys - (todo - {k}) == (members.Keys - todo) + {k};
        if v.JString? && Strip(v.s) != "" {
          OverlaidAcceptKeys(names, defaults, members, members.Keys - todo, k);
          OverlaidAcceptValues(names, defaults, members, members.Keys - todo, k);
          names := names[k := Strip(v.s)];
        } else {
          OverlaidReject(names, defaults, members, members.Keys - todo, k);
        }
        todo := todo - {k};
      }
      OverlaidOnAll(names, defaults, members);
    }
  }

  /**
   * What the merge keeps: every entry address, plus every key with an
   * accepted override; an accepted override is stored stripped, and every
   * other key keeps its generated name.
   */
  lemma ResolvedNamesSpec(entries: seq<Entry>, payload: NamesPayload)
    ensures var names, defaults := ResolvedNames(entries, payload), DefaultNames(entries);
      && (forall a :: a in names <==> a in defaults || (payload.JObject? && a in payload.members && Accepted(payload.members[a])))
      && (forall a :: payload.JObject? && a in payload.members && Accepted(payload.members[a]) ==>
            names[a] == Strip(payload.members[a].s) && names[a] != "" && Trimmed(names[a]))
      && (forall a :: a in defaults && !(payload.JObject? && a in payload.members && Accepted(payload.members[a])) ==>
            names[a] == defaults[a])
  {
    forall a | payload.JObject? && a in payload.members && Accepted(payload.members[a])
      ensures Trimmed(Strip(payload.members[a].s))
    {
      StripSpec(payload.members[a].s);
    }
  }

  /** A generated name is never empty: it starts with the type label. */
  lemma {:induction false} DefaultNamesNonEmpty(entries: seq<Entry>)
    requires forall i :: 0 <= i < |entries| ==> entries[i].generatedName == BuildName(entries[i].objectType, entries[i].objectNo, entries[i].funcNo)
    ensures forall a :: a in DefaultNames(entries) ==> DefaultNames(entries)[a] != ""
  {
    if entries != [] {
      DefaultNamesNonEmpty(entries[..|entries| - 1]);
    }
  }

  /**
   * Every name an export writes is non-empty, so `apply_names_to_xml`
   * renames every GroupAddress element whose address is in the map.
   */
  lemma ResolvedNamesNonEmpty(doc: seq<Document.Element>, payload: NamesPayload)
    ensures forall a :: a in ResolvedNames(Entries(doc), payload) ==> ResolvedNames(Entries(doc), payload)[a] != ""
  {
    var entries := Entries(doc);
    forall i | 0 <= i < |entries|
      ensures entries[i].generatedName == BuildName(entries[i].objectType, entries[i].objectNo, entries[i].funcNo)
    {
      EntryFacts(doc, i);
    }
    DefaultNamesNonEmpty(entries);
  }

  datatype ExportError = MissingSessionId | SessionNotFound

  /**
   * `_resolve_export_payload`: an empty session id and an unknown session
   * are errors; otherwise the session's entries and the merged names.
   */
  method ResolveExport(sessionId: string, sessions: map<string, seq<Entry>>, payload: NamesPayload)
    returns (r: Result<(seq<Entry>, map<string, string>), ExportError>)
    ensures sessionId == "" ==> r == Err(MissingSessionId)
    ensures sessionId != "" && sessionId !in sessions ==> r == Err(SessionNotFound)
    ensures sessionId != "" && sessionId in sessions ==>
      r == Ok((sessions[sessionId], ResolvedNames(sessions[sessionId], payload)))
  {
    if sessionId == "" {
      return Err(MissingSessionId);
    }
    if sessionId !in sessions {
      return Err(SessionNotFound);
    }
    var entries := sessions[sessionId];
    var names := MergeNames(entries, payload);
    return Ok((entries, names));
  }
}
