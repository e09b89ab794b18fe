/** The cross-check of metabolite naming across the AGORA strain models and
    the two host models: for the first metabolite of every exchange
    reaction, every name is mapped to the set of ids it is used with and
    every id to the set of names, and both tables are written out one row
    per key with the members sorted and joined by "; ". */
module MetaboliteCheck {
  import opened Text

  /** A metabolite as the model reader gives it. */
  datatype Metabolite = Metabolite(id: string, name: string)

  ghost function NamesIn(pairs: set<(string, string)>): set<string>
  {
    set p | p in pairs :: p.0
  }

  ghost function IdsIn(pairs: set<(string, string)>): set<string>
  {
    set p | p in pairs :: p.1
  }

  ghost function IdsOfName(pairs: set<(string, string)>, name: string): set<string>
  {
    set p | p in pairs && p.0 == name :: p.1
  }

  ghost function NamesOfId(pairs: set<(string, string)>, id: string): set<string>
  {
    set p | p in pairs && p.1 == id :: p.0
  }

  /** The names recorded together with some id, each with its set of ids. */
  ghost function NamesToIds(pairs: set<(string, string)>): map<string, set<string>>
  {
    map n | n in NamesIn(pairs) :: IdsOfName(pairs, n)
  }

  /** The ids recorded together with some name, each with its set of names. */
  ghost function IdsToNames(pairs: set<(string, string)>): map<string, set<string>>
  {
    map i | i in IdsIn(pairs) :: NamesOfId(pairs, i)
  }

  /** The two tables describe the same relation from either side: an id is
      listed under a name exactly when that name is listed under the id,
      exactly when the pair was recorded; no listed set is empty. */
  lemma TablesAreInverse(pairs: set<(string, string)>, name: string, id: string)
    ensures (name in NamesToIds(pairs) && id in NamesToIds(pairs)[name]) <==> (name, id) in pairs
    ensures (id in IdsToNames(pairs) && name in IdsToNames(pairs)[id]) <==> (name, id) in pairs
    ensures name in NamesToIds(pairs) ==> NamesToIds(pairs)[name] != {}
    ensures id in IdsToNames(pairs) ==> IdsToNames(pairs)[id] != {}
  {
    if (name, id) in pairs {
      assert name in NamesIn(pairs);
      assert id in IdsIn(pairs);
    }
    if name in NamesToIds(pairs) {
      var p :| p in pairs && p.0 == name;
      assert p.1 in NamesToIds(pairs)[name];
    }
    if id in IdsToNames(pairs) {
      var p :| p in pairs && p.1 == id;
      assert p.0 in IdsToNames(pairs)[id];
    }
  }

  /** `metabolites_names_id` and `metabolites_id_names`, filled in place. */
  class MetaboliteIndex {
    var namesToIds: map<string, set<string>>
    var idsToNames: map<string, set<string>>
    /** The (name, id) pairs recorded so far. */
    ghost var recorded: set<(string, string)>

    ghost predicate Valid()
      reads this
    {
      namesToIds == NamesToIds(recorded) && idsToNames == IdsToNames(recorded)
    }

    constructor ()
      ensures Valid() && recorded == {}
    {
      namesToIds := map[];
      idsToNames := map[];
      recorded := {};
    }

    /** Lines 26-35: add the id to the name's set (creating it when the name
        is new) and the name to the id's set. */
    method Record(m: Metabolite)
      requires Valid()
      modifies this
      ensures Valid()
      ensures recorded == old(recorded) + {(m.name, m.id)}
      ensures (m.name, m.id) in old(recorded) ==>
                namesToIds == old(namesToIds) && idsToNames == old(idsToNames)
    {
      if m.name !in namesToIds {
        namesToIds := namesToIds[m.name := {m.id}];
      } else {
        namesToIds := namesToIds[m.name := namesToIds[m.name] + {m.id}];
      }
      if m.id !in idsToNames {
        idsToNames := idsToNames[m.id := {m.name}];
      } else {
        idsToNames := idsToNames[m.id := idsToNames[m.id] + {m.name}];
      }
      NamesStep(recorded, m.name, m.id);
      IdsStep(recorded, m.name, m.id);
      if (m.name, m.id) in recorded {
        assert recorded + {(m.name, m.id)} == recorded;
      }
      recorded := recorded + {(m.name, m.id)};
    }

    /** Lines 22-35, 40-51 and 56-67: every exchange of one model, taking
        only the first metabolite of each (the reader never gives an
        exchange without one). */
    method RecordModel(exchanges: seq<seq<Metabolite>>)
      requires Valid()
      requires forall e :: 0 <= e < |exchanges| ==> |exchanges[e]| > 0
      modifies this
      ensures Valid()
      ensures recorded == old(recorded) + FirstPairs(exchanges)
    {
      for e := 0 to |exchanges|
        invariant Valid()
        invariant recorded == old(recorded) + FirstPairs(exchanges[..e])
      {
        assert exchanges[..e + 1][..e] == exchanges[..e];
        var m := exchanges[e][0];
        Record(m);
      }
      assert exchanges[..|exchanges|] == exchanges;
    }
  }

  /** The (name, id) pairs of the first metabolite of each exchange. */
  ghost function FirstPairs(exchanges: seq<seq<Metabolite>>): set<(string, string)>
    requires forall e :: 0 <= e < |exchanges| ==> |exchanges[e]| > 0
  {
    if exchanges == [] then {}
    else
      var last := exchanges[|exchanges| - 1][0];
      FirstPairs(exchanges[..|exchanges| - 1]) + {(last.name, last.id)}
  }

  /** Adding one pair changes the two tables exactly as the branches of
      `Record` do. */
  lemma NamesStep(pairs: set<(string, string)>, name: string, id: string)
    ensures NamesToIds(pairs + {(name, id)}) ==
              NamesToIds(pairs)[name := if name in NamesToIds(pairs) then NamesToIds(pairs)[name] + {id} else {id}]
  {
    var after := pairs + {(name, id)};
    assert NamesIn(after) == NamesIn(pairs) + {name};
    forall n ensures IdsOfName(after, n) == IdsOfName(pairs, n) + (if n == name then {id} else {}) {
    }
    var l := NamesToIds(after);
    var r := NamesToIds(pairs)[name := if name in NamesToIds(pairs) then NamesToIds(pairs)[name] + {id} else {id}];
    assert l.Keys == r.Keys;
    if name !in NamesToIds(pairs) {
      assert IdsOfName(pairs, name) == {};
    }
    forall n | n in l ensures l[n] == r[n] {
    }
  }

  lemma IdsStep(pairs: set<(string, string)>, name: string, id: string)
    ensures IdsToNames(pairs + {(name, id)}) ==
              IdsToNames(pairs)[id := if id in IdsToNames(pairs) then IdsToNames(pairs)[id] + {name} else {name}]
  {
    var after := pairs + {(name, id)};
    assert IdsIn(after) == IdsIn(pairs) + {id};
    forall i ensures NamesOfId(after, i) == NamesOfId(pairs, i) + (if i == id then {name} else {}) {
    }
    var l := IdsToNames(after);
    var r := IdsToNames(pairs)[id := if id in IdsToNames(pairs) then IdsToNames(pairs)[id] + {name} else {name}];
    assert l.Keys == r.Keys;
    if id !in IdsToNames(pairs) {
      assert NamesOfId(pairs, id) == {};
    }
    forall i | i in l ensures l[i] == r[i] {
    }
  }

  /** Lines 14-67: the AGORA models, then the small-intestine model, then
      the large-intestine model. The tables depend only on the set of pairs
      seen, so neither the order of the models nor repeated pairs matter. */
  method BuildIndex(agora: seq<seq<seq<Metabolite>>>, small: seq<seq<Metabolite>>, large: seq<seq<Metabolite>>)
    returns (index: MetaboliteIndex)
    requires forall k, e :: 0 <= k < |agora| && 0 <= e < |agora[k]| ==> |agora[k][e]| > 0
    requires forall e :: 0 <= e < |small| ==> |small[e]| > 0
    requires forall e :: 0 <= e < |large| ==> |large[e]| > 0
    ensures fresh(index) && index.Valid()
    ensures index.recorded == AllPairs(agora) + FirstPairs(small) + FirstPairs(large)
  {
    index := new MetaboliteIndex();
    for k := 0 to |agora|
      invariant fresh(index) && index.Valid()
      invariant index.recorded == AllPairs(agora[..k])
    {
      assert agora[..k + 1][..k] == agora[..k];
      index.RecordModel(agora[k]);
    }
    assert agora[..|agora|] == agora;
    index.RecordModel(small);
    index.RecordModel(large);
  }

  ghost function AllPairs(models: seq<seq<seq<Metabolite>>>): set<(string, string)>
    requires forall k, e :: 0 <= k < |models| && 0 <= e < |models[k]| ==> |models[k][e]| > 0
  {
    if models == [] then {}
    else AllPairs(models[..|models| - 1]) + FirstPairs(models[|models| - 1])
  }

  // ---------------------------------------------------------------------
  // Sorted rows

  /** Python's string order: code point by code point, a proper prefix first. */
  predicate LexLeq(a: string, b: string)
  {
    if a == [] then true
    else if b == [] then false
    else if a[0] != b[0] then a[0] < b[0]
    else LexLeq(a[1..], b[1..])
  }

  lemma {:induction false} LexTotal(a: string, b: string)
    ensures LexLeq(a, b) || LexLeq(b, a)
    ensures LexLeq(a, b) && LexLeq(b, a) ==> a == b
  {
    if a != [] && b != [] && a[0] == b[0] {
      LexTotal(a[1..], b[1..]);
      if LexLeq(a, b) && LexLeq(b, a) {
        assert a == [a[0]] + a[1..] && b == [b[0]] + b[1..];
      }
    }
  }

  lemma {:induction false} LexTransitive(a: string, b: string, c: string)
    requires LexLeq(a, b) && LexLeq(b, c)
    ensures LexLeq(a, c)
  {
    if a != [] && b != [] && c != [] && a[0] == b[0] && b[0] == c[0] {
      LexTransitive(a[1..], b[1..], c[1..]);
    }
  }

  predicate IsLeast(m: string, s: set<string>)
  {
    m in s && forall y :: y in s ==> LexLeq(m, y)
  }

  /** A non-empty set of strings has a least element. */
  lemma {:induction false} LeastExists(s: set<string>)
    requires s != {}
    ensures exists m :: IsLeast(m, s)
    decreases |s|
  {
    var x :| x in s;
    var rest := s - {x};
    if rest == {} {
      assert s == {x};
      LexTotal(x, x);
      assert IsLeast(x, s);
    } else {
      LeastExists(rest);
      var m :| IsLeast(m, rest);
      LeastOfOneMore(x, rest, m);
      assert s == rest + {x};
    }
  }

  lemma LeastOfOneMore(x: string, rest: set<string>, m: string)
    requires IsLeast(m, rest)
    ensures IsLeast(x, rest + {x}) || IsLeast(m, rest + {x})
  {
    LexTotal(x, m);
    LexTotal(x, x);
    if LexLeq(x, m) {
      forall y | y in rest ensures LexLeq(x, y) {
        LexTransitive(x, m, y);
      }
    }
  }

  /** `sorted(members)`: the members in increasing order, each once. */
  ghost function Sorted(members: set<string>): (r: seq<string>)
    ensures |r| == |members|
    ensures forall x :: x in members <==> x in r
    ensures forall i, j :: 0 <= i < j < |r| ==> LexLeq(r[i], r[j]) && r[i] != r[j]
    decreases |members|
  {
    if members == {} then []
    else
      LeastExists(members);
      var m :| IsLeast(m, members);
      var rest := Sorted(members - {m});
      [m] + rest
  }

  /** Lines 73-74 and 80-81: a row is the key and its members, sorted and
      joined by "; ". */
  ghost function Row(key: string, members: set<string>): (row: (string, string))
  {
    (key, Join(Sorted(members), "; "))
  }

  /** The rows of the name-to-ids file, one per recorded name. */
  ghost function NameRows(pairs: set<(string, string)>): (rows: map<string, string>)
    ensures rows.Keys == set p | p in pairs :: p.0
  {
    map n | n in NamesToIds(pairs) :: Row(n, NamesToIds(pairs)[n]).1
  }

  /** The rows of the id-to-names file, one per recorded id. */
  ghost function IdRows(pairs: set<(string, string)>): (rows: map<string, string>)
    ensures rows.Keys == set p | p in pairs :: p.1
  {
    map i | i in IdsToNames(pairs) :: Row(i, IdsToNames(pairs)[i]).1
  }
}
