/**
 The settings window sends the configuration as a JSON merge patch. Here the
 patch maker is compared with applying a patch, section 2 of RFC 7396.
 */
module JsonMergePatch {
  import opened Types

  datatype Json =
    | Null
    | Bool(b: bool)
    | Number(n: real)
    | String(s: string)
    | Array(elements: seq<Json>)
    | Object(members: map<string, Json>)

  // ----- Making a patch -----

  /** The patch from `old` to `new`, or nothing if there is nothing to say. */
  function MakePatch(oldValue: Json, newValue: Json): Option<Json>
    decreases newValue
  {
    if oldValue.Object? && newValue.Object? then
      var patch := PatchMembers(oldValue, newValue);
      if patch == map[] then None else Some(Object(patch))
    else if oldValue == newValue then None
    else Some(newValue)
  }

  /** What the patch says about member `k` of the new object. */
  function MemberPatch(oldValue: Json, newValue: Json, k: string): Option<Json>
    requires oldValue.Object? && newValue.Object? && k in newValue.members
    decreases newValue, 0
  {
    if k in oldValue.members then MakePatch(oldValue.members[k], newValue.members[k]) else Some(newValue.members[k])
  }

  function PatchMembers(oldValue: Json, newValue: Json): map<string, Json>
    requires oldValue.Object? && newValue.Object?
    decreases newValue, 1
  {
    map k | k in newValue.members && MemberPatch(oldValue, newValue, k).Some? ::
      MemberPatch(oldValue, newValue, k).value
  }

  // ----- Applying a patch -----

  /** MergePatch(Target, Patch) of RFC 7396; a target of `None` is an undefined member. */
  function Apply(target: Option<Json>, patch: Json): Json
    decreases patch
  {
    if patch.Object? then
      var base := if target.Some? && target.value.Object? then target.value.members else map[];
      Object(map k | k in base.Keys + patch.members.Keys && !(k in patch.members && patch.members[k] == Null) ::
               if k in patch.members
               then Apply(if k in base then Some(base[k]) else None, patch.members[k])
               else base[k])
    else patch
  }

  /** The recursive maker; its dictionary is filled member by member, in any order. */
  method MakeJSONMergePatch(oldValue: Json, newValue: Json) returns (r: Option<Json>)
    ensures r == MakePatch(oldValue, newValue)
    decreases newValue
  {
    if oldValue.Object? && newValue.Object? {
      var patch: map<string, Json> := map[];
      var left := newValue.members.Keys;
      while left != {}
        invariant left <= newValue.members.Keys
        invariant patch ==
                  map k | k in PatchMembers(oldValue, newValue) && k !in left :: PatchMembers(oldValue, newValue)[k]
        decreases left
      {
        var key :| key in left;
        if key in oldValue.members {
          var child := MakeJSONMergePatch(oldValue.members[key], newValue.members[key]);
          if child.Some? {
            patch := patch[key := child.value];
          }
        } else {
          patch := patch[key := newValue.members[key]];
        }
        left := left - {key};
      }
      assert patch == PatchMembers(oldValue, newValue);
      return if patch == map[] then None else Some(Object(patch));
    }
    if oldValue == newValue {
      return None;
    }
    return Some(newValue);
  }

  // ----- What applying the patch yields -----

  /** The configuration after the patch, if there is one, has been applied. */
  function Patched(oldValue: Json, newValue: Json): Json {
    var p := MakePatch(oldValue, newValue);
    if p.None? then oldValue else Apply(Some(oldValue), p.value)
  }

  /** No object in `v`, however deep below objects, has a null member. */
  predicate Clean(v: Json) {
    v.Object? ==> forall k :: k in v.members ==> v.members[k] != Null && Clean(v.members[k])
  }

  /** What a merge patch can bring about: nothing disappears, and no null is written into an object. */
  predicate Representable(oldValue: Json, newValue: Json)
    decreases newValue
  {
    if oldValue.Object? && newValue.Object? then
      && (forall k :: k in oldValue.members ==> k in newValue.members)
      && (forall k :: k in newValue.members ==>
            if k in oldValue.members
            then
              && (newValue.members[k] == Null ==> oldValue.members[k] == Null)
              && Representable(oldValue.members[k], newValue.members[k])
            else newValue.members[k] != Null && Clean(newValue.members[k]))
    else oldValue == newValue || Clean(newValue)
  }

  lemma {:induction false} ApplyToNothing(target: Option<Json>, v: Json)
    requires target.None? || !target.value.Object?
    ensures Apply(target, v) == v <==> Clean(v)
    decreases v
  {
    if v.Object? {
      var r := Apply(target, v);
      forall k | k in v.members ensures Apply(None, v.members[k]) == v.members[k] <==> Clean(v.members[k]) {
        ApplyToNothing(None, v.members[k]);
      }
      if r == v {
        forall k | k in v.members ensures v.members[k] != Null && Clean(v.members[k]) {
          assert k in r.members;
          assert r.members[k] == Apply(None, v.members[k]);
        }
      }
      if Clean(v) {
        assert r.members == v.members;
      }
    }
  }

  /** An empty patch changes nothing, so objects can be treated alike. */
  lemma PatchedObjects(oldValue: Json, newValue: Json)
    requires oldValue.Object? && newValue.Object?
    ensures Patched(oldValue, newValue) == Apply(Some(oldValue), Object(PatchMembers(oldValue, newValue)))
  {
    if PatchMembers(oldValue, newValue) == map[] {
      assert Apply(Some(oldValue), Object(map[])).members == oldValue.members;
    }
  }

  /** Member `k` of the patched object. */
  lemma PatchedMember(oldValue: Json, newValue: Json, k: string)
    requires oldValue.Object? && newValue.Object?
    ensures var r := Patched(oldValue, newValue);
            && r.Object?
            && (k in r.members <==>
                  if k !in newValue.members then k in oldValue.members
                  else if k in oldValue.members then !(newValue.members[k] == Null && oldValue.members[k] != Null)
                  else newValue.members[k] != Null)
            && (k in r.members ==>
                  r.members[k] ==
                  if k !in newValue.members then oldValue.members[k]
                  else if k in oldValue.members then Patched(oldValue.members[k], newValue.members[k])
                  else Apply(None, newValue.members[k]))
  {
    PatchedObjects(oldValue, newValue);
    if k in newValue.members && k in oldValue.members {
      NullPatch(oldValue.members[k], newValue.members[k]);
    }
  }

  /** The patch for a member is a null exactly if the member becomes null. */
  lemma NullPatch(oldValue: Json, newValue: Json)
    ensures MakePatch(oldValue, newValue) == Some(Null) <==> newValue == Null && oldValue != Null
  {
  }

  /** Making a patch and applying it gives the new value exactly if the new value is representable. */
  lemma {:induction false} PatchRoundTripIff(oldValue: Json, newValue: Json)
    ensures Patched(oldValue, newValue) == newValue <==> Representable(oldValue, newValue)
    decreases newValue
  {
    if oldValue.Object? && newValue.Object? {
      forall k | k in newValue.members && k in oldValue.members
        ensures Patched(oldValue.members[k], newValue.members[k]) == newValue.members[k] <==>
                Representable(oldValue.members[k], newValue.members[k])
      {
        PatchRoundTripIff(oldValue.members[k], newValue.members[k]);
      }
      RoundTripObjects(oldValue, newValue);
    } else if oldValue != newValue {
      if !oldValue.Object? {
        ApplyToNothing(Some(oldValue), newValue);
      }
    }
  }

  lemma RoundTripObjects(oldValue: Json, newValue: Json)
    requires oldValue.Object? && newValue.Object?
    requires forall k :: k in newValue.members && k in oldValue.members ==>
               (Patched(oldValue.members[k], newValue.members[k]) == newValue.members[k] <==>
                Representable(oldValue.members[k], newValue.members[k]))
    ensures Patched(oldValue, newValue) == newValue <==> Representable(oldValue, newValue)
  {
    var r := Patched(oldValue, newValue);
    forall k ensures MemberAgrees(oldValue, newValue, k) {
      PatchedMember(oldValue, newValue, k);
      if k in newValue.members && k !in oldValue.members {
        ApplyToNothing(None, newValue.members[k]);
      }
    }
    PatchedMember(oldValue, newValue, "");
    hide Patched, MakePatch, Apply, Clean;
    if r == newValue {
      forall k | k in oldValue.members ensures k in newValue.members {
        assert MemberAgrees(oldValue, newValue, k);
      }
      forall k | k in newValue.members ensures MemberRepresentable(oldValue, newValue, k) {
        assert MemberAgrees(oldValue, newValue, k);
      }
    }
    if Representable(oldValue, newValue) {
      forall k
        ensures k in r.members <==> k in newValue.members
        ensures k in r.members ==> r.members[k] == newValue.members[k]
      {
        assert MemberAgrees(oldValue, newValue, k);
      }
      assert r.members == newValue.members;
    }
  }

  ghost predicate MemberRepresentable(oldValue: Json, newValue: Json, k: string)
    requires oldValue.Object? && newValue.Object? && k in newValue.members
  {
    if k in oldValue.members
    then
      && (newValue.members[k] == Null ==> oldValue.members[k] == Null)
      && Representable(oldValue.members[k], newValue.members[k])
    else newValue.members[k] != Null && Clean(newValue.members[k])
  }

  /** Member `k` comes out as wanted exactly if it is representable. */
  ghost predicate MemberAgrees(oldValue: Json, newValue: Json, k: string)
    requires oldValue.Object? && newValue.Object?
  {
    var r := Patched(oldValue, newValue);
    && r.Object?
    && (k !in newValue.members ==> (k in r.members <==> k in oldValue.members))
    && (k in newValue.members ==>
          (k in r.members && r.members[k] == newValue.members[k] <==> MemberRepresentable(oldValue, newValue, k)))
  }

  // ----- The promised case -----

  /** No null anywhere below objects. */
  predicate NoNulls(v: Json) {
    v != Null && Clean(v)
  }

  /** Every key of an old object recursively survives in the new one. */
  predicate Survives(oldValue: Json, newValue: Json)
    decreases newValue
  {
    oldValue.Object? && newValue.Object? ==>
      forall k :: k in oldValue.members ==> k in newValue.members && Survives(oldValue.members[k], newValue.members[k])
  }

  lemma {:induction false} SurvivingIsRepresentable(oldValue: Json, newValue: Json)
    requires NoNulls(newValue) && Survives(oldValue, newValue)
    ensures Representable(oldValue, newValue)
    decreases newValue
  {
    if oldValue.Object? && newValue.Object? {
      forall k | k in newValue.members && k in oldValue.members
        ensures Representable(oldValue.members[k], newValue.members[k])
      {
        SurvivingIsRepresentable(oldValue.members[k], newValue.members[k]);
      }
    }
  }

  lemma {:induction false} NothingToSay(v: Json)
    ensures MakePatch(v, v) == None
  {
    if v.Object? {
      forall k | k in v.members ensures MemberPatch(v, v, k) == None {
        NothingToSay(v.members[k]);
      }
      assert PatchMembers(v, v) == map[];
    }
  }

  /** The new value says nothing that the old one does not say already. */
  predicate Covered(oldValue: Json, newValue: Json)
    decreases newValue
  {
    if oldValue.Object? && newValue.Object?
    then
      forall k :: k in newValue.members ==>
        k in oldValue.members && Covered(oldValue.members[k], newValue.members[k])
    else oldValue == newValue
  }

  lemma {:induction false} NilIffCovered(oldValue: Json, newValue: Json)
    ensures MakePatch(oldValue, newValue) == None <==> Covered(oldValue, newValue)
    decreases newValue
  {
    if oldValue.Object? && newValue.Object? {
      forall k | k in newValue.members && k in oldValue.members
        ensures MakePatch(oldValue.members[k], newValue.members[k]) == None <==>
                Covered(oldValue.members[k], newValue.members[k])
      {
        NilIffCovered(oldValue.members[k], newValue.members[k]);
      }
      var p := PatchMembers(oldValue, newValue);
      if p == map[] {
        forall k | k in newValue.members
          ensures k in oldValue.members && Covered(oldValue.members[k], newValue.members[k])
        {
          assert k !in p;
          assert MemberPatch(oldValue, newValue, k) == None;
        }
      }
      if Covered(oldValue, newValue) {
        forall k | k in newValue.members ensures k !in p {
          assert MemberPatch(oldValue, newValue, k) == None;
        }
        assert p == map[];
      }
    }
  }

  /**
   For values without nulls in which every old key survives: the patch brings
   about the new value, it is absent exactly if nothing changed, and it names
   no member that is unchanged.
   */
  lemma PatchIsExact(oldValue: Json, newValue: Json)
    requires NoNulls(newValue) && Survives(oldValue, newValue)
    ensures Patched(oldValue, newValue) == newValue
    ensures MakePatch(oldValue, newValue) == None <==> oldValue == newValue
    ensures oldValue.Object? && newValue.Object? ==>
              forall k :: k in PatchMembers(oldValue, newValue) ==>
                k !in oldValue.members || oldValue.members[k] != newValue.members[k]
  {
    SurvivingIsRepresentable(oldValue, newValue);
    PatchRoundTripIff(oldValue, newValue);
    NothingToSay(newValue);
    PatchNamesChangesOnly(oldValue, newValue);
    hide *;
    PatchedWithoutPatch(oldValue, newValue);
  }

  lemma PatchedWithoutPatch(oldValue: Json, newValue: Json)
    ensures MakePatch(oldValue, newValue) == None ==> Patched(oldValue, newValue) == oldValue
  {
  }

  lemma PatchNamesChangesOnly(oldValue: Json, newValue: Json)
    ensures oldValue.Object? && newValue.Object? ==>
              forall k :: k in PatchMembers(oldValue, newValue) ==>
                k !in oldValue.members || oldValue.members[k] != newValue.members[k]
  {
    if oldValue.Object? && newValue.Object? {
      forall k | k in PatchMembers(oldValue, newValue) && k in oldValue.members
        ensures oldValue.members[k] != newValue.members[k]
      {
        assert MemberPatch(oldValue, newValue, k).Some?;
        assert MakePatch(oldValue.members[k], newValue.members[k]).Some?;
        NothingToSay(newValue.members[k]);
      }
    }
  }

  // ----- What a merge patch cannot bring about -----

  /** A key that is gone from the new object stays, and nothing is sent. */
  lemma LostKeyStays(k: string, v: Json)
    ensures MakePatch(Object(map[k := v]), Object(map[])) == None
    ensures Patched(Object(map[k := v]), Object(map[])) == Object(map[k := v]) != Object(map[])
  {
    assert k in map[k := v];
  }

  /** A null that is new in an object is sent, and read as a removal. */
  lemma NewNullIsLost(k: string)
    ensures MakePatch(Object(map[]), Object(map[k := Null])) == Some(Object(map[k := Null]))
    ensures Patched(Object(map[]), Object(map[k := Null])) == Object(map[]) != Object(map[k := Null])
  {
    assert k in map[k := Null];
    assert PatchMembers(Object(map[]), Object(map[k := Null])) == map[k := Null];
  }
}
