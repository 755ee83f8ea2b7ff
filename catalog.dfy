/**
 * The pure part of main.py that turns fetched detail payloads into the
 * grouped report: `pokemonList` (projection to flat records),
 * `getPokemonType` (the distinct type names) and `groupPokemonByType`
 * (for each type name, the records carrying it, in list order).
 */
module Catalog {
  import opened Text
  import opened Details

  /** One entry of `pokemonList`: id, name, and the `", "`-joined type and ability names. */
  datatype Record = Record(id: int, name: string, types: string, abilities: string)

  /** `map(lambda t: t['type']['name'], p['types'])`, in payload order. */
  function TypeNames(p: Payload): seq<string>
  {
    seq(|p.types|, i requires 0 <= i < |p.types| => p.types[i].typeRef.name)
  }

  /** `map(lambda a: a['ability']['name'], p['abilities'])`, in payload order. */
  function AbilityNames(p: Payload): seq<string>
  {
    seq(|p.abilities|, i requires 0 <= i < |p.abilities| => p.abilities[i].abilityRef.name)
  }

  /** No name in the list contains the separator. */
  ghost predicate SeparatorFree(names: seq<string>)
  {
    forall k :: 0 <= k < |names| ==> !Contains(names[k], Sep)
  }

  /**
   * The flat record built for one payload. Its id and name are copied, and
   * splitting its `types` (`abilities`) string on `", "` gives back the type
   * (ability) names in payload order, as long as there is at least one and
   * none contains `", "`; with no types the string is empty.
   */
  function Project(p: Payload): (r: Record)
    ensures r.id == p.id && r.name == p.name
    ensures TypeNames(p) != [] && SeparatorFree(TypeNames(p)) ==> Split(r.types, Sep) == TypeNames(p)
    ensures AbilityNames(p) != [] && SeparatorFree(AbilityNames(p)) ==> Split(r.abilities, Sep) == AbilityNames(p)
    ensures TypeNames(p) == [] ==> r.types == ""
    ensures r.types == Join(TypeNames(p), Sep) && r.abilities == Join(AbilityNames(p), Sep)
  {
    var r := Record(p.id, p.name, Join(TypeNames(p), Sep), Join(AbilityNames(p), Sep));
    assert TypeNames(p) != [] && SeparatorFree(TypeNames(p)) ==> Split(r.types, Sep) == TypeNames(p) by {
      if TypeNames(p) != [] && SeparatorFree(TypeNames(p)) { SplitJoin(TypeNames(p)); }
    }
    assert AbilityNames(p) != [] && SeparatorFree(AbilityNames(p)) ==> Split(r.abilities, Sep) == AbilityNames(p) by {
      if AbilityNames(p) != [] && SeparatorFree(AbilityNames(p)) { SplitJoin(AbilityNames(p)); }
    }
    r
  }

  /** `pokemonList(payloads)`: one record per payload, same length, same order. */
  function ProjectAll(ps: seq<Payload>): (r: seq<Record>)
    ensures |r| == |ps|
    ensures forall i :: 0 <= i < |ps| ==> r[i].id == ps[i].id && r[i].name == ps[i].name
    ensures forall i :: 0 <= i < |ps| ==> r[i] == Project(ps[i])
  {
    seq(|ps|, i requires 0 <= i < |ps| => Project(ps[i]))
  }

  /** No element occurs twice. */
  predicate NoDuplicates(s: seq<string>)
  {
    forall i, j :: 0 <= i < j < |s| ==> s[i] != s[j]
  }

  /** `chain.from_iterable`: all lists concatenated in order. */
  function Flatten(ss: seq<seq<string>>): (r: seq<string>)
    ensures forall x :: x in r <==> exists i :: 0 <= i < |ss| && x in ss[i]
  {
    if ss == [] then []
    else
      var r := ss[0] + Flatten(ss[1..]);
      assert forall x :: x in r <==> exists i :: 0 <= i < |ss| && x in ss[i] by {
        forall x ensures x in r <==> exists i :: 0 <= i < |ss| && x in ss[i] {
          if exists i :: 0 <= i < |ss| && x in ss[i] {
            var i :| 0 <= i < |ss| && x in ss[i];
            if i > 0 { assert x in ss[1..][i - 1]; }
          }
        }
      }
      r
  }

  /**
   * `list(set(s))`: each distinct element once. Python leaves the order of a
   * set unspecified; this keeps first occurrences, and only the absence of
   * duplicates and the element set are promised.
   */
  function Dedup(s: seq<string>): (r: seq<string>)
    ensures NoDuplicates(r)
    ensures forall x :: x in r <==> x in s
  {
    if s == [] then []
    else
      var rest := Dedup(s[..|s| - 1]);
      assert s == s[..|s| - 1] + [s[|s| - 1]];
      if s[|s| - 1] in rest then rest else rest + [s[|s| - 1]]
  }

  /**
   * `getPokemonType(payloads)`: the type names of all payloads, each once,
   * and nothing else.
   */
  function Categories(ps: seq<Payload>): (r: seq<string>)
    ensures NoDuplicates(r)
    ensures forall t :: t in r <==> exists i :: 0 <= i < |ps| && t in TypeNames(ps[i])
  {
    var perPayload := seq(|ps|, i requires 0 <= i < |ps| => TypeNames(ps[i]));
    var r := Dedup(Flatten(perPayload));
    assert forall t :: t in r <==> exists i :: 0 <= i < |ps| && t in TypeNames(ps[i]) by {
      forall t ensures t in r <==> exists i :: 0 <= i < |ps| && t in TypeNames(ps[i]) {
        if exists i :: 0 <= i < |ps| && t in TypeNames(ps[i]) {
          var i :| 0 <= i < |ps| && t in TypeNames(ps[i]);
          assert t in perPayload[i];
        }
      }
    }
    r
  }

  /** `a` is `b` with some elements left out, the rest in their original order. */
  predicate IsSubsequence(a: seq<Record>, b: seq<Record>)
    decreases |b|
  {
    a == [] || (b != [] && ((a[0] == b[0] && IsSubsequence(a[1..], b[1..])) || IsSubsequence(a, b[1..])))
  }

  /** `typeName in x['types'].split(', ')`. */
  predicate HasType(x: Record, typeName: string)
  {
    typeName in Split(x.types, Sep)
  }

  /**
   * `list(filter(lambda p: typeName in p['types'].split(', '), records))`: the
   * records carrying `typeName`, in list order.
   */
  function Members(typeName: string, records: seq<Record>): (r: seq<Record>)
    ensures IsSubsequence(r, records)
  {
    if records == [] then []
    else
      var rest := Members(typeName, records[1..]);
      assert records == [records[0]] + records[1..];
      if HasType(records[0], typeName) then
        assert ([records[0]] + rest)[1..] == rest;
        [records[0]] + rest
      else
        rest
  }

  /** A record is kept exactly when it is in the list and carries `typeName`. */
  lemma {:induction false} MembersMembership(typeName: string, records: seq<Record>, x: Record)
    ensures x in Members(typeName, records) <==> x in records && HasType(x, typeName)
  {
    if records != [] {
      MembersMembership(typeName, records[1..], x);
      assert records == [records[0]] + records[1..];
    }
  }

  /** The filter keeps each record carrying `typeName` as often as it occurs, and no other. */
  lemma {:induction false} MembersMultiplicity(typeName: string, records: seq<Record>, x: Record)
    ensures multiset(Members(typeName, records))[x] == if HasType(x, typeName) then multiset(records)[x] else 0
  {
    if records != [] {
      MembersMultiplicity(typeName, records[1..], x);
      assert records == [records[0]] + records[1..];
    }
  }

  /**
   * `groupPokemonByType(labels, records)`: exactly the given labels as keys,
   * each mapped to the records whose split `types` contain it, in list order.
   */
  function Group(labels: seq<string>, records: seq<Record>): (r: map<string, seq<Record>>)
    ensures forall t :: t in r <==> t in labels
    ensures forall t :: t in r ==> IsSubsequence(r[t], records)
    ensures forall t, x :: t in r ==> (x in r[t] <==> x in records && HasType(x, t))
    ensures forall t :: t in r ==> r[t] == Members(t, records)
  {
    var r := map t | t in labels :: Members(t, records);
    assert forall t, x :: t in r ==> (x in r[t] <==> x in records && HasType(x, t)) by {
      forall t, x | t in r ensures x in r[t] <==> x in records && HasType(x, t) {
        MembersMembership(t, records, x);
      }
    }
    r
  }

  /** Every type name of every payload is non-empty and free of the separator. */
  ghost predicate WellFormedTypes(ps: seq<Payload>)
  {
    forall i :: 0 <= i < |ps| ==> SeparatorFree(TypeNames(ps[i])) && "" !in TypeNames(ps[i])
  }

  /** The report main.py prints: the projected records grouped by the extracted type names. */
  function Report(ps: seq<Payload>): (r: map<string, seq<Record>>)
    ensures forall t :: t in r <==> t in Categories(ps)
    ensures forall t :: t in r ==> r[t] == Members(t, ProjectAll(ps))
  {
    Group(Categories(ps), ProjectAll(ps))
  }

  /** The report's keys are exactly the type names seen in the payloads. */
  lemma ReportKeys(ps: seq<Payload>, t: string)
    ensures t in Report(ps) <==> exists j :: 0 <= j < |ps| && t in TypeNames(ps[j])
  {
    assert Report(ps) == Group(Categories(ps), ProjectAll(ps));
  }

  /**
   * When every type name is non-empty and free of `", "`, each payload's
   * record is filed under exactly its own type names.
   */
  lemma ReportFilesByOwnTypes(ps: seq<Payload>, i: nat, t: string)
    requires i < |ps| && WellFormedTypes(ps)
    ensures t in Report(ps) && ProjectAll(ps)[i] in Report(ps)[t] <==> t in TypeNames(ps[i])
  {
    var records := ProjectAll(ps);
    var x := records[i];
    var labels := Categories(ps);
    assert Report(ps) == Group(labels, records);
    assert t in Report(ps) <==> t in labels;
    assert x in records;
    assert t in Report(ps) ==> (x in Report(ps)[t] <==> HasType(x, t));
    assert x == Project(ps[i]);
    assert SeparatorFree(TypeNames(ps[i])) && "" !in TypeNames(ps[i]);
    if TypeNames(ps[i]) == [] {
      assert Split(x.types, Sep) == [""] by {
        SplitEmptyJoin();
      }
      if t in labels {
        var j :| 0 <= j < |ps| && t in TypeNames(ps[j]);
        assert "" !in TypeNames(ps[j]);
      }
    } else {
      assert Split(x.types, Sep) == TypeNames(ps[i]);
      if t in TypeNames(ps[i]) {
        assert t in labels;
      }
    }
  }
}
