// Filling the gaps of a translation tree from the English one, and the key parity check.
module LocaleMerge {
  import opened Prelude

  // A JSON value; anything but an object is a leaf of a translation tree.
  datatype Json = Null | Scalar(text: string) | Array(items: seq<string>) | Obj(fields: Fields)

  type Fields = map<string, Json>

  // Reading one of these from a plain object finds a function of Object.prototype, although
  // the object has no such key of its own.
  const INHERITED_NAMES :=
    {"constructor", "hasOwnProperty", "isPrototypeOf", "propertyIsEnumerable", "toLocaleString", "toString", "valueOf",
     "__defineGetter__", "__defineSetter__", "__lookupGetter__", "__lookupSetter__"}

  // What a property access finds: an own value, something inherited, or undefined.
  datatype Found = Own(value: Json) | InheritedFunction | Undefined

  function Access(fields: Fields, k: string): Found {
    if k in fields then Own(fields[k]) else if k in INHERITED_NAMES then InheritedFunction else Undefined
  }

  // The own fields of a target that is an object, or none.
  function OwnFields(target: Found): Fields {
    if target.Own? && target.value.Obj? then target.value.fields else map[]
  }

  // ----- Merging -----

  // The key comes into the result: it was there, or English has something to put there. A
  // missing leaf is recognised by its being undefined, so an inherited name hides the gap.
  predicate Filled(en: Fields, te: Fields, k: string) {
    k in te || (k in en && (en[k].Obj? || k !in INHERITED_NAMES))
  }

  function MergeFields(en: Fields, te: Fields): Fields
    decreases Obj(en)
  {
    map k | k in en.Keys + te.Keys && Filled(en, te, k) ::
      if k in en && en[k].Obj? then Obj(MergeFields(en[k].fields, OwnFields(Access(te, k))))
      else if k in te then te[k]
      else en[k]
  }

  function DeepMerge(en: Json, target: Found): Found {
    if en.Obj? then Own(Obj(MergeFields(en.fields, OwnFields(target))))
    else if target != Undefined then target
    else Own(en)
  }

  // The keys in `todo` are still as in the start, the others are merged.
  ghost predicate MergedBut(en: Fields, start: Fields, todo: set<string>, te: Fields) {
    && (forall k :: k in te <==> if k in todo then k in start else Filled(en, start, k))
    && (forall k :: k in te ==> te[k] == if k in todo then start[k] else MergeFields(en, start)[k])
  }

  // The shallow copy `te` is filled key by key; the order of the keys does not matter.
  method DeepMergeMissing(en: Json, target: Found) returns (merged: Found)
    ensures merged == DeepMerge(en, target)
    ensures !en.Obj? ==> merged == if target == Undefined then Own(en) else target
    ensures en.Obj? && target.Own? && target.value.Obj? ==> merged == Own(Obj(MergeFields(en.fields, target.value.fields)))
    ensures en.Obj? && !(target.Own? && target.value.Obj?) ==> merged == Own(Obj(MergeFields(en.fields, map[])))
    decreases en, 1
  {
    if !en.Obj? {
      return if target != Undefined then target else Own(en);
    }
    var fields := en.fields;
    var start := OwnFields(target);
    var te := start;
    var todo := fields.Keys;
    while todo != {}
      invariant todo <= fields.Keys
      invariant MergedBut(fields, start, todo, te)
      decreases todo
    {
      var k :| k in todo;
      var v := fields[k];
      var cur := Access(te, k);
      assert cur == Access(start, k);
      todo := todo - {k};
      if v.Obj? {
        var below := DeepMergeMissing(v, cur);
        te := te[k := below.value];
      } else if cur == Undefined {
        te := te[k := v];
      }
    }
    assert te.Keys == MergeFields(fields, start).Keys;
    assert te == MergeFields(fields, start);
    merged := Own(Obj(te));
  }

  // What the merge puts under each key, whether or not the trees agree: an English object is
  // merged into what the target has there, or into nothing if that is no object; an English
  // text only fills a gap; and what English lacks stays.
  lemma MergedKeyByKey(en: Fields, te: Fields, k: string)
    ensures k in MergeFields(en, te) ==> k in en || k in te
    ensures k in te && k !in en ==> k in MergeFields(en, te) && MergeFields(en, te)[k] == te[k]
    ensures k in en && !en[k].Obj? && k in te ==> k in MergeFields(en, te) && MergeFields(en, te)[k] == te[k]
    ensures k in en && !en[k].Obj? && k !in te && k !in INHERITED_NAMES ==>
              k in MergeFields(en, te) && MergeFields(en, te)[k] == en[k]
    ensures k in en && en[k].Obj? ==>
              && k in MergeFields(en, te)
              && MergeFields(en, te)[k]
                 == Obj(MergeFields(en[k].fields, if k in te && te[k].Obj? then te[k].fields else map[]))
  {
  }

  // An English text is left out exactly under these names.
  lemma NeverFilledExactly(k: string, text: string)
    ensures k in MergeFields(map[k := Scalar(text)], map[]) <==>
              && k != "constructor" && k != "hasOwnProperty" && k != "isPrototypeOf" && k != "propertyIsEnumerable"
              && k != "toLocaleString" && k != "toString" && k != "valueOf" && k != "__defineGetter__"
              && k != "__defineSetter__" && k != "__lookupGetter__" && k != "__lookupSetter__"
  {
  }

  // Merging again changes nothing, for all trees.
  lemma {:induction false} MergeIsIdempotent(en: Fields, te: Fields)
    ensures MergeFields(en, MergeFields(en, te)) == MergeFields(en, te)
    decreases Obj(en)
  {
    var once := MergeFields(en, te);
    var twice := MergeFields(en, once);
    assert twice.Keys == once.Keys;
    forall k | k in once
      ensures twice[k] == once[k]
    {
      if k in en && en[k].Obj? {
        MergeIsIdempotent(en[k].fields, OwnFields(Access(te, k)));
      }
    }
  }

  // ----- Leaves -----

  function LeafAt(j: Json, path: seq<string>): Option<Json> {
    if path == [] then (if j.Obj? then None else Some(j))
    else if j.Obj? && path[0] in j.fields then LeafAt(j.fields[path[0]], path[1..])
    else None
  }

  // The two trees agree on which shared paths are objects.
  ghost predicate Agree(en: Fields, te: Fields)
    decreases Obj(en)
  {
    forall k :: k in en && k in te ==>
      (en[k].Obj? <==> te[k].Obj?) && (en[k].Obj? ==> Agree(en[k].fields, te[k].fields))
  }

  // No gap of the target is hidden by an inherited name.
  ghost predicate NoHiddenGap(en: Fields, te: Fields)
    decreases Obj(en)
  {
    forall k :: k in en ==>
      if en[k].Obj? then NoHiddenGap(en[k].fields, OwnFields(Access(te, k))) else k in te || k !in INHERITED_NAMES
  }

  // Every leaf of the target keeps its value, and every other leaf is the English one.
  lemma {:induction false} MergedLeaves(en: Fields, te: Fields, path: seq<string>)
    requires Agree(en, te) && NoHiddenGap(en, te)
    ensures LeafAt(Obj(MergeFields(en, te)), path)
         == if LeafAt(Obj(te), path).Some? then LeafAt(Obj(te), path) else LeafAt(Obj(en), path)
    decreases Obj(en)
  {
    if path != [] && path[0] in en && en[path[0]].Obj? {
      var k := path[0];
      if k in te {
        MergedLeaves(en[k].fields, te[k].fields, path[1..]);
      } else {
        MergedLeaves(en[k].fields, map[], path[1..]);
        assert LeafAt(Obj(map[]), path[1..]).None?;
      }
    }
  }

  // ----- The parity check -----

  function NextKey(prefix: string, k: string): string {
    if prefix == "" then k else prefix + "." + k
  }

  function FlattenKeys(fields: Fields, prefix: string): set<string>
    decreases Obj(fields), 1
  {
    set k, x | k in fields && x in KeysUnder(fields[k], NextKey(prefix, k)) :: x
  }

  function KeysUnder(j: Json, key: string): set<string>
    decreases j, 2
  {
    if j.Obj? then FlattenKeys(j.fields, key) else {key}
  }

  // A path as a dotted key.
  function Dotted(prefix: string, path: seq<string>): string
    decreases |path|
  {
    if path == [] then prefix else Dotted(NextKey(prefix, path[0]), path[1..])
  }

  // A path is dotted by putting a dot between its names.
  lemma DottedExactly(prefix: string, k: string, path: seq<string>)
    ensures Dotted(prefix, []) == prefix
    ensures Dotted("", [k] + path) == Dotted(k, path)
    ensures prefix != "" ==> Dotted(prefix, [k] + path) == Dotted(prefix + "." + k, path)
  {
    assert ([k] + path)[1..] == path;
  }

  // The flattened keys are the leaf paths, dotted: each key is some path ...
  lemma {:induction false} FlattenedKeyHasPath(fields: Fields, prefix: string, x: string) returns (p: seq<string>)
    requires x in FlattenKeys(fields, prefix)
    ensures LeafAt(Obj(fields), p).Some? && Dotted(prefix, p) == x
    decreases Obj(fields)
  {
    var k :| k in fields && x in KeysUnder(fields[k], NextKey(prefix, k));
    var rest := [];
    if fields[k].Obj? {
      rest := FlattenedKeyHasPath(fields[k].fields, NextKey(prefix, k), x);
    }
    p := [k] + rest;
    assert p[1..] == rest;
  }

  // ... and each path is a key.
  lemma {:induction false} PathIsFlattenedKey(fields: Fields, prefix: string, p: seq<string>)
    requires LeafAt(Obj(fields), p).Some?
    ensures Dotted(prefix, p) in FlattenKeys(fields, prefix)
    decreases Obj(fields)
  {
    var k, rest := p[0], p[1..];
    if fields[k].Obj? {
      PathIsFlattenedKey(fields[k].fields, NextKey(prefix, k), rest);
    }
    assert Dotted(prefix, p) in KeysUnder(fields[k], NextKey(prefix, k));
  }

  function OnlyIn(a: set<string>, b: set<string>): set<string> {
    a - b
  }

  // The merged tree has the keys of both, so English has none that it lacks.
  lemma MergedKeysAreTheUnion(en: Fields, te: Fields)
    requires Agree(en, te) && NoHiddenGap(en, te)
    ensures FlattenKeys(MergeFields(en, te), "") == FlattenKeys(en, "") + FlattenKeys(te, "")
    ensures OnlyIn(FlattenKeys(en, ""), FlattenKeys(MergeFields(en, te), "")) == {}
  {
    var merged := MergeFields(en, te);
    forall x | x in FlattenKeys(merged, "")
      ensures x in FlattenKeys(en, "") || x in FlattenKeys(te, "")
    {
      var p := FlattenedKeyHasPath(merged, "", x);
      MergedLeaves(en, te, p);
      if LeafAt(Obj(te), p).Some? {
        PathIsFlattenedKey(te, "", p);
      } else {
        PathIsFlattenedKey(en, "", p);
      }
    }
    forall x | x in FlattenKeys(en, "")
      ensures x in FlattenKeys(merged, "")
    {
      var p := FlattenedKeyHasPath(en, "", x);
      MergedLeaves(en, te, p);
      PathIsFlattenedKey(merged, "", p);
    }
    forall x | x in FlattenKeys(te, "")
      ensures x in FlattenKeys(merged, "")
    {
      var p := FlattenedKeyHasPath(te, "", x);
      MergedLeaves(en, te, p);
      PathIsFlattenedKey(merged, "", p);
    }
  }

  // ----- Exactly when no English leaf is missing afterwards -----

  // No English leaf stands where the target has an object, or is hidden by an inherited name.
  ghost predicate Coverable(en: Fields, te: Fields)
    decreases Obj(en), 0
  {
    forall k :: k in en ==> CoverableAt(en[k], te, k)
  }

  ghost predicate CoverableAt(v: Json, te: Fields, k: string)
    decreases v, 1
  {
    if v.Obj? then Coverable(v.fields, OwnFields(Access(te, k)))
    else if k in te then !te[k].Obj?
    else k !in INHERITED_NAMES
  }

  // Every leaf of `v` is, at its path below `at`, a leaf of `w`.
  ghost predicate Keeps(v: Json, w: Json, at: seq<string>) {
    forall p :: LeafAt(v, p).Some? ==> LeafAt(w, at + p).Some?
  }

  lemma KeepsBelow(v: Json, w: Json, k: string)
    requires w.Obj? && k in w.fields
    ensures Keeps(v, w, [k]) <==> Keeps(v, w.fields[k], [])
  {
    forall p: seq<string>
      ensures LeafAt(w, [k] + p) == LeafAt(w.fields[k], [] + p)
    {
      assert ([k] + p)[1..] == p == [] + p;
    }
    if Keeps(v, w, [k]) {
      forall p | LeafAt(v, p).Some? ensures LeafAt(w.fields[k], [] + p).Some? {
        assert LeafAt(w, [k] + p).Some?;
      }
    }
  }

  lemma KeepsEach(en: Fields, w: Json)
    ensures Keeps(Obj(en), w, []) <==> forall k :: k in en ==> Keeps(en[k], w, [k])
  {
    if forall k :: k in en ==> Keeps(en[k], w, [k]) {
      forall p | LeafAt(Obj(en), p).Some? ensures LeafAt(w, [] + p).Some? {
        assert LeafAt(en[p[0]], p[1..]).Some?;
        assert [] + p == [p[0]] + p[1..];
      }
    }
    if Keeps(Obj(en), w, []) {
      forall k, p | k in en && LeafAt(en[k], p).Some? ensures LeafAt(w, [k] + p).Some? {
        assert ([k] + p)[1..] == p && LeafAt(Obj(en), [k] + p).Some?;
        assert [] + ([k] + p) == [k] + p;
      }
    }
  }

  lemma LeafKept(v: Json, w: Json, at: seq<string>)
    requires !v.Obj?
    ensures Keeps(v, w, at) <==> LeafAt(w, at).Some?
  {
    assert at + [] == at && LeafAt(v, []).Some?;
  }

  lemma {:induction false} CoversExactlyAt(v: Json, en: Fields, te: Fields, k: string)
    requires k in en && en[k] == v
    ensures CoverableAt(v, te, k) <==> Keeps(v, Obj(MergeFields(en, te)), [k])
    decreases v, 1
  {
    var merged := Obj(MergeFields(en, te));
    if v.Obj? {
      CoversExactly(v.fields, OwnFields(Access(te, k)));
      KeepsBelow(v, merged, k);
    } else {
      LeafKept(v, merged, [k]);
    }
  }

  // The merged tree has every English leaf path exactly under that condition.
  lemma {:induction false} CoversExactly(en: Fields, te: Fields)
    ensures Coverable(en, te) <==> Keeps(Obj(en), Obj(MergeFields(en, te)), [])
    decreases Obj(en), 0
  {
    forall k | k in en
      ensures CoverableAt(en[k], te, k) <==> Keeps(en[k], Obj(MergeFields(en, te)), [k])
    {
      CoversExactlyAt(en[k], en, te, k);
    }
    KeepsEach(en, Obj(MergeFields(en, te)));
  }

  // For example: an English text under the key "constructor" is never copied.
  lemma InheritedNameIsNeverFilled()
    ensures var en: Fields := map["constructor" := Scalar("Builder")];
            MergeFields(en, map[]) == map[] && "constructor" in OnlyIn(FlattenKeys(en, ""), FlattenKeys(MergeFields(en, map[]), ""))
  {
    var en: Fields := map["constructor" := Scalar("Builder")];
    assert "constructor" in KeysUnder(en["constructor"], NextKey("", "constructor"));
  }
}
