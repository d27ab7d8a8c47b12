/** Redaction of request bodies for the audit trail (internal/audit/middleware.go), on decoded JSON. */
module Redaction {
  import opened Common
  import opened JsonValues

  const REDACTED := Str("[REDACTED]")

  const SENSITIVE := {"password", "api_key", "auth_token", "oauth_client_secret", "client_secret", "key", "token"}

  /** Lower case as far as it matters here: the characters whose lower case is an ASCII letter. Besides A to Z these are
      the dotted capital I and the Kelvin sign. */
  function LowerChar(c: char): char {
    if 'A' <= c <= 'Z' then (c as int + 32) as char
    else if c == '\U{0130}' then 'i'
    else if c == '\U{212A}' then 'k'
    else c
  }

  function Lower(s: string): string {
    seq(|s|, i requires 0 <= i < |s| => LowerChar(s[i]))
  }

  predicate Sensitive(key: string) {
    Lower(key) in SENSITIVE
  }

  predicate IsZero(v: Json) {
    v == Null || v == Str("") || v == Num(0.0) || v == Bool(false)
  }

  /** The fields redactMap keeps: the sensitive ones always, the others unless they are zero or redact to nothing. */
  predicate Keeps(key: string, v: Json)
    decreases v
  {
    Sensitive(key) || (!IsZero(v) && (v.Obj? ==> Redacted(v) != Obj(map[])))
  }

  function RedactedField(key: string, v: Json): Json
    decreases v, 2
  {
    if Sensitive(key) then REDACTED
    else if v.Arr? then Arr(seq(|v.items|, i requires 0 <= i < |v.items| => RedactedItem(v.items[i])))
    else RedactedItem(v)
  }

  /** Objects in an array are redacted; everything else in it, arrays included, is passed through. */
  function RedactedItem(v: Json): Json
    decreases v, 1
  {
    if v.Obj? then Redacted(v) else v
  }

  function Redacted(o: Object): Object
    decreases o, 0
  {
    Obj(map key | key in o.fields && Keeps(key, o.fields[key]) :: RedactedField(key, o.fields[key]))
  }

  method RedactMap(o: Object) returns (out: map<string, Json>)
    ensures Obj(out) == Redacted(o)
    decreases o, 0
  {
    hide Sensitive;
    out := map[];
    var rest := o.fields.Keys;
    while rest != {}
      invariant rest <= o.fields.Keys
      invariant out ==
        map key | key in o.fields && key !in rest && Keeps(key, o.fields[key]) :: RedactedField(key, o.fields[key])
      decreases |rest|
    {
      var key :| key in rest;
      rest := rest - {key};
      var v := o.fields[key];
      if Sensitive(key) {
        out := out[key := REDACTED];
      } else if !IsZero(v) {
        if v.Obj? {
          var nested := RedactMap(v);
          if |nested| > 0 {
            out := out[key := Obj(nested)];
          }
        } else if v.Arr? {
          var items := RedactSlice(v);
          out := out[key := Arr(items)];
        } else {
          out := out[key := v];
        }
      }
    }
  }

  method RedactSlice(a: Json) returns (out: seq<Json>)
    requires a.Arr?
    ensures out == seq(|a.items|, i requires 0 <= i < |a.items| => RedactedItem(a.items[i]))
    decreases a, 0
  {
    out := [];
    for i := 0 to |a.items|
      invariant |out| == i
      invariant forall k :: 0 <= k < i ==> out[k] == RedactedItem(a.items[k])
    {
      if a.items[i].Obj? {
        var nested := RedactMap(a.items[i]);
        out := out + [Obj(nested)];
      } else {
        out := out + [a.items[i]];
      }
    }
  }

  lemma RedactedAt(o: Object, key: string)
    ensures key in Redacted(o).fields <==> key in o.fields && Keeps(key, o.fields[key])
    ensures key in Redacted(o).fields ==> Redacted(o).fields[key] == RedactedField(key, o.fields[key])
  {
  }

  lemma RedactedFieldCases(key: string, v: Json)
    requires !Sensitive(key)
    ensures v.Obj? ==> RedactedField(key, v) == Redacted(v) && (Keeps(key, v) <==> Redacted(v) != Obj(map[]))
    ensures v.Arr? ==> RedactedField(key, v).Arr? && |RedactedField(key, v).items| == |v.items| && Keeps(key, v)
    ensures v.Arr? ==> forall i :: 0 <= i < |v.items| ==> RedactedField(key, v).items[i] == RedactedItem(v.items[i])
    ensures !v.Obj? && !v.Arr? ==> RedactedField(key, v) == v && (Keeps(key, v) <==> !IsZero(v))
  {
  }

  // ---------------------------------------------------------------------------------------------------
  // Redacting twice
  // ---------------------------------------------------------------------------------------------------

  lemma {:induction false} RedactionIsIdempotent(o: Object)
    ensures Redacted(Redacted(o)) == Redacted(o)
    decreases o, 0
  {
    var r := Redacted(o);
    forall key | key in r.fields
      ensures Keeps(key, r.fields[key]) && RedactedField(key, r.fields[key]) == r.fields[key]
    {
      RedactedAt(o, key);
      if !Sensitive(key) {
        FieldIsIdempotent(key, o.fields[key]);
      }
    }
  }

  lemma {:induction false} FieldIsIdempotent(key: string, v: Json)
    requires !Sensitive(key) && Keeps(key, v)
    ensures Keeps(key, RedactedField(key, v))
    ensures RedactedField(key, RedactedField(key, v)) == RedactedField(key, v)
    decreases v, 1
  {
    var w := RedactedField(key, v);
    RedactedFieldCases(key, v);
    RedactedFieldCases(key, w);
    if v.Obj? {
      RedactionIsIdempotent(v);
    } else if v.Arr? {
      forall i | 0 <= i < |v.items|
        ensures RedactedField(key, w).items[i] == w.items[i]
      {
        if v.items[i].Obj? {
          RedactionIsIdempotent(v.items[i]);
        }
      }
    }
  }

  // ---------------------------------------------------------------------------------------------------
  // What the redacted body shows
  // ---------------------------------------------------------------------------------------------------

  /** A step into a value: to a field of an object, or to an element of an array. */
  datatype Step = Key(name: string) | At(i: nat)

  function Get(v: Json, path: seq<Step>): Option<Json> {
    if path == [] then Some(v)
    else
      match path[0]
      case Key(name) => if v.Obj? && name in v.fields then Get(v.fields[name], path[1..]) else None
      case At(i) => if v.Arr? && i < |v.items| then Get(v.items[i], path[1..]) else None
  }

  /** Whether a path enters an array that is directly inside an array. */
  predicate EntersNested(path: seq<Step>) {
    exists k :: 0 <= k < |path| - 1 && path[k].At? && path[k + 1].At?
  }

  predicate Scalar(v: Json) {
    !v.Obj? && !v.Arr?
  }

  /** The names of secrets, and how a key may write one: in capitals or not, the dotted capital I and the Kelvin sign being
      capitals too. */
  const SECRETS := ["password", "api_key", "auth_token", "oauth_client_secret", "client_secret", "key", "token"]

  predicate Spells(key: string, name: string) {
    |key| == |name| && forall i :: 0 <= i < |key| ==>
      || (key[i] == name[i] && !('A' <= key[i] <= 'Z'))
      || (key[i] in "ABCDEFGHIJKLMNOPQRSTUVWXYZ" && key[i] as int - 'A' as int == name[i] as int - 'a' as int)
      || (name[i] == 'i' && key[i] == '\U{0130}')
      || (name[i] == 'k' && key[i] == '\U{212A}')
  }

  lemma SpellsIffLower(key: string, name: string)
    requires forall i :: 0 <= i < |name| ==> name[i] == '_' || 'a' <= name[i] <= 'z'
    ensures Spells(key, name) <==> Lower(key) == name
  {
    if Spells(key, name) {
      assert forall i :: 0 <= i < |key| ==> LowerChar(key[i]) == name[i];
    } else if Lower(key) == name {
      forall i | 0 <= i < |key|
        ensures LowerChar(key[i]) == name[i]
      {
        assert Lower(key)[i] == name[i];
      }
      CapitalsAreCapitals();
    }
  }

  lemma CapitalsAreCapitals()
    ensures forall c: char :: 'A' <= c <= 'Z' ==> c in "ABCDEFGHIJKLMNOPQRSTUVWXYZ"
  {
    forall c: char | 'A' <= c <= 'Z'
      ensures c in "ABCDEFGHIJKLMNOPQRSTUVWXYZ"
    {
      assert "ABCDEFGHIJKLMNOPQRSTUVWXYZ"[c as int - 'A' as int] == c;
    }
  }

  /** A key is sensitive exactly if it spells the name of a secret, in whatever case and as a whole. */
  lemma SensitiveIff(key: string)
    ensures Sensitive(key) <==> exists i :: 0 <= i < |SECRETS| && Spells(key, SECRETS[i])
  {
    forall i | 0 <= i < |SECRETS|
      ensures Spells(key, SECRETS[i]) <==> Lower(key) == SECRETS[i]
    {
      SpellsIffLower(key, SECRETS[i]);
    }
    hide Spells, Lower;
    assert Lower(key) in SENSITIVE <==> exists i :: 0 <= i < |SECRETS| && Lower(key) == SECRETS[i] by {
      SecretsAreListed(Lower(key));
    }
  }

  lemma SecretsAreListed(name: string)
    ensures name in SENSITIVE <==> name in SECRETS
  {
  }

  /** The values that are not worth a line in the audit trail. */
  predicate Blank(v: Json) {
    match v
    case Null => true
    case Bool(value) => !value
    case Num(number) => number == 0.0
    case Str(text) => |text| == 0
    case _ => false
  }

  /** Whether anything of an object is left after redaction: a sensitive field, an array, something not zero. */
  ghost predicate Worthwhile(o: Object)
    decreases o
  {
    exists key :: key in o.fields &&
      (Sensitive(key) || o.fields[key].Arr? || (Scalar(o.fields[key]) && !Blank(o.fields[key])) ||
       (o.fields[key].Obj? && Worthwhile(o.fields[key])))
  }

  lemma {:induction false} EmptyIffWorthless(o: Object)
    ensures Redacted(o) == Obj(map[]) <==> !Worthwhile(o)
    decreases o
  {
    forall key | key in o.fields && o.fields[key].Obj?
      ensures Redacted(o.fields[key]) == Obj(map[]) <==> !Worthwhile(o.fields[key])
    {
      EmptyIffWorthless(o.fields[key]);
    }
    assert forall key :: key in Redacted(o).fields <==> key in o.fields && Keeps(key, o.fields[key]);
    if Redacted(o) != Obj(map[]) {
      assert Redacted(o).fields != map[];
      var key :| key in Redacted(o).fields;
    }
  }

  /** What redaction makes of what is at the end of a path that meets no sensitive key before its last step. Inside an
      array that is directly inside an array everything is as it was. */
  ghost predicate ShownAs(path: seq<Step>, v: Json, shown: Option<Json>)
    requires path != []
  {
    var last := Last(path);
    if EntersNested(path) then shown == Some(v)
    else if last.Key? && Sensitive(last.name) then shown == Some(REDACTED)
    else if v.Arr? then shown.Some? && shown.value.Arr? && |shown.value.items| == |v.items|
    else if last.At? then (if v.Obj? then shown.Some? && shown.value.Obj? else shown == Some(v))
    else if v.Obj? then (shown.Some? <==> Worthwhile(v)) && (shown.Some? ==> shown.value.Obj?)
    else shown == if Blank(v) then None else Some(v)
  }

  lemma NestedLater(path: seq<Step>, n: nat)
    requires n < |path| && n <= 2 && path[0].Key? && (n == 2 ==> path[1].At? && path[2].Key?)
    ensures EntersNested(path) <==> EntersNested(path[n..])
    ensures Last(path[n..]) == Last(path)
  {
    if EntersNested(path) {
      var k :| 0 <= k < |path| - 1 && path[k].At? && path[k + 1].At?;
      assert path[n..][k - n].At? && path[n..][k - n + 1].At?;
    }
    if EntersNested(path[n..]) {
      var k :| 0 <= k < |path[n..]| - 1 && path[n..][k].At? && path[n..][k + 1].At?;
      assert path[k + n].At? && path[k + n + 1].At?;
    }
  }

  lemma FieldShown(o: Object, path: seq<Step>, key: string)
    requires path == [Key(key)] && key in o.fields
    ensures ShownAs(path, o.fields[key], Get(Redacted(o), path))
  {
    var v := o.fields[key];
    RedactedAt(o, key);
    assert path[1..] == [];
    if !Sensitive(key) {
      RedactedFieldCases(key, v);
      if v.Obj? {
        EmptyIffWorthless(v);
      }
    }
  }

  lemma ObjectFieldShown(o: Object, path: seq<Step>, key: string)
    requires |path| > 1 && path[0] == Key(key) && path[1].Key? && key in o.fields && !Sensitive(key) && o.fields[key].Obj?
    ensures Get(Redacted(o), path) == Get(Redacted(o.fields[key]), path[1..])
  {
    RedactedAt(o, key);
    RedactedFieldCases(key, o.fields[key]);
  }

  lemma ElementShown(o: Object, path: seq<Step>, key: string, i: nat)
    requires |path| > 1 && path[0] == Key(key) && path[1] == At(i) && key in o.fields && !Sensitive(key)
    requires o.fields[key].Arr? && i < |o.fields[key].items|
    ensures Get(Redacted(o), path) == Get(RedactedItem(o.fields[key].items[i]), path[2..])
    ensures Get(o, path) == Get(o.fields[key].items[i], path[2..])
  {
    RedactedAt(o, key);
    RedactedFieldCases(key, o.fields[key]);
    assert path[1..][1..] == path[2..];
  }

  lemma {:induction false} FieldsStayVisible(o: Object, path: seq<Step>)
    requires path != [] && Get(o, path).Some?
    requires forall k :: 0 <= k < |path| - 1 && path[k].Key? ==> !Sensitive(path[k].name)
    ensures ShownAs(path, Get(o, path).value, Get(Redacted(o), path))
    decreases |path|
  {
    var key := path[0].name;
    var v := o.fields[key];
    if |path| == 1 {
      assert path == [Key(key)];
      FieldShown(o, path, key);
    } else if v.Obj? {
      ObjectFieldShown(o, path, key);
      NestedLater(path, 1);
      FieldsStayVisible(v, path[1..]);
    } else {
      var i := path[1].i;
      ElementShown(o, path, key, i);
      if |path| > 2 && v.items[i].Obj? {
        NestedLater(path, 2);
        FieldsStayVisible(v.items[i], path[2..]);
      } else if |path| > 2 {
        assert path[1].At? && path[2].At?;
      }
    }
  }

  /** Redaction adds nothing, and leaves no field that is zero or an empty object, except in arrays inside arrays. */
  ghost predicate Tidy(v: Json)
    decreases v
  {
    match v
    case Obj(fields) =>
      forall key :: key in fields ==> !Blank(fields[key]) && fields[key] != Obj(map[]) && Tidy(fields[key])
    case Arr(items) => forall i :: 0 <= i < |items| && items[i].Obj? ==> Tidy(items[i])
    case _ => true
  }

  lemma {:induction false} RedactionTidies(o: Object)
    ensures Tidy(Redacted(o)) && Redacted(o).fields.Keys <= o.fields.Keys
    decreases o
  {
    var r := Redacted(o);
    forall key | key in r.fields && !Sensitive(key)
      ensures !Blank(r.fields[key]) && r.fields[key] != Obj(map[]) && Tidy(r.fields[key])
    {
      var v := o.fields[key];
      RedactedAt(o, key);
      RedactedFieldCases(key, v);
      if v.Obj? {
        RedactionTidies(v);
      } else if v.Arr? {
        forall i | 0 <= i < |v.items| && v.items[i].Obj?
          ensures Tidy(Redacted(v.items[i]))
        {
          RedactionTidies(v.items[i]);
        }
      }
    }
  }

  // ---------------------------------------------------------------------------------------------------
  // What it hides
  // ---------------------------------------------------------------------------------------------------

  /** Two values that differ at most in what sits under sensitive keys, at any depth. */
  ghost predicate Alike(a: Json, b: Json)
    decreases a
  {
    if a.Obj? && b.Obj? then
      && a.fields.Keys == b.fields.Keys
      && forall key :: key in a.fields && !Sensitive(key) ==> Alike(a.fields[key], b.fields[key])
    else if a.Arr? && b.Arr? then
      && |a.items| == |b.items|
      && forall i :: 0 <= i < |a.items| ==> Alike(a.items[i], b.items[i])
    else a == b
  }

  /** Whether a sensitive key occurs anywhere in a value, not counting what sits under one. */
  ghost predicate HoldsSecret(v: Json)
    decreases v
  {
    match v
    case Obj(fields) => exists key :: key in fields && (Sensitive(key) || HoldsSecret(fields[key]))
    case Arr(items) => exists i :: 0 <= i < |items| && HoldsSecret(items[i])
    case _ => false
  }

  /** Whether a sensitive key occurs inside an array that is itself directly inside an array. */
  ghost predicate Leaks(o: Object)
    decreases o, 0
  {
    exists key :: key in o.fields && !Sensitive(key) && FieldLeaks(o.fields[key])
  }

  ghost predicate FieldLeaks(v: Json)
    decreases v, 1
  {
    if v.Obj? then Leaks(v)
    else if v.Arr? then exists i :: 0 <= i < |v.items| && ItemLeaks(v.items[i])
    else false
  }

  ghost predicate ItemLeaks(v: Json)
    decreases v, 1
  {
    if v.Obj? then Leaks(v) else HoldsSecret(v)
  }

  lemma {:induction false} AlikeWithoutSecretIsEqual(a: Json, b: Json)
    requires Alike(a, b) && !HoldsSecret(a)
    ensures a == b
    decreases a
  {
    if a.Obj? && b.Obj? {
      forall key | key in a.fields
        ensures a.fields[key] == b.fields[key]
      {
        AlikeWithoutSecretIsEqual(a.fields[key], b.fields[key]);
      }
    } else if a.Arr? && b.Arr? {
      forall i | 0 <= i < |a.items|
        ensures a.items[i] == b.items[i]
      {
        AlikeWithoutSecretIsEqual(a.items[i], b.items[i]);
      }
    }
  }

  lemma {:induction false} SealedFieldsAgree(a: Json, b: Json)
    requires Alike(a, b) && !FieldLeaks(a)
    ensures IsZero(a) == IsZero(b) && a.Obj? == b.Obj? && a.Arr? == b.Arr?
    ensures a.Obj? ==> Redacted(a) == Redacted(b)
    ensures a.Arr? ==> |a.items| == |b.items|
    ensures a.Arr? ==> forall i :: 0 <= i < |a.items| ==> RedactedItem(a.items[i]) == RedactedItem(b.items[i])
    decreases a, 1
  {
    if a.Obj? {
      SealedBodiesRedactAlike(a, b);
    } else if a.Arr? {
      forall i | 0 <= i < |a.items|
        ensures RedactedItem(a.items[i]) == RedactedItem(b.items[i])
      {
        if a.items[i].Obj? {
          SealedBodiesRedactAlike(a.items[i], b.items[i]);
        } else {
          AlikeWithoutSecretIsEqual(a.items[i], b.items[i]);
        }
      }
    }
  }

  /** Bodies that differ only under sensitive keys redact to the same, whatever their depth and the case of the keys,
      as long as no sensitive key hides in an array inside an array. */
  lemma {:induction false} SealedBodiesRedactAlike(a: Object, b: Object)
    requires Alike(a, b) && !Leaks(a)
    ensures Redacted(a) == Redacted(b)
    decreases a, 0
  {
    forall key | key in a.fields && !Sensitive(key)
      ensures Keeps(key, a.fields[key]) == Keeps(key, b.fields[key])
      ensures RedactedField(key, a.fields[key]) == RedactedField(key, b.fields[key])
    {
      SealedFieldsAgree(a.fields[key], b.fields[key]);
    }
  }

  /** A body with every secret changed. */
  function Vary(v: Json): Json
    decreases v
  {
    match v
    case Obj(fields) =>
      Obj(map key | key in fields :: if Sensitive(key) then Other(fields[key]) else Vary(fields[key]))
    case Arr(items) => Arr(seq(|items|, i requires 0 <= i < |items| => Vary(items[i])))
    case _ => v
  }

  function Other(v: Json): Json {
    if v == Null then Bool(true) else Null
  }

  lemma {:induction false} VaryIsAlike(v: Json)
    ensures Alike(v, Vary(v))
    decreases v
  {
    if v.Obj? {
      forall key | key in v.fields && !Sensitive(key)
        ensures Alike(v.fields[key], Vary(v).fields[key])
      {
        VaryIsAlike(v.fields[key]);
      }
    } else if v.Arr? {
      forall i | 0 <= i < |v.items|
        ensures Alike(v.items[i], Vary(v).items[i])
      {
        VaryIsAlike(v.items[i]);
      }
    }
  }

  lemma {:induction false} VaryChangesSecrets(v: Json)
    requires HoldsSecret(v)
    ensures Vary(v) != v
    decreases v
  {
    if v.Obj? {
      var key :| key in v.fields && (Sensitive(key) || HoldsSecret(v.fields[key]));
      if !Sensitive(key) {
        VaryChangesSecrets(v.fields[key]);
      }
      assert Vary(v).fields[key] != v.fields[key];
    } else {
      var i :| 0 <= i < |v.items| && HoldsSecret(v.items[i]);
      VaryChangesSecrets(v.items[i]);
      assert Vary(v).items[i] != v.items[i];
    }
  }

  lemma {:induction false} LeakShows(o: Object)
    requires Leaks(o)
    ensures Redacted(Vary(o)) != Redacted(o)
    decreases o
  {
    var key :| key in o.fields && !Sensitive(key) && FieldLeaks(o.fields[key]);
    var v := o.fields[key];
    assert Vary(o).fields[key] == Vary(v);
    RedactedAt(o, key);
    RedactedAt(Vary(o), key);
    RedactedFieldCases(key, v);
    RedactedFieldCases(key, Vary(v));
    if v.Obj? {
      LeakShows(v);
    } else {
      var i :| 0 <= i < |v.items| && ItemLeaks(v.items[i]);
      if v.items[i].Obj? {
        LeakShows(v.items[i]);
      } else {
        VaryChangesSecrets(v.items[i]);
      }
      assert RedactedField(key, v).items[i] != RedactedField(key, Vary(v)).items[i];
    }
  }

  /** The redacted body tells nothing about the values under sensitive keys exactly when no sensitive key sits inside an
      array that is directly inside an array. */
  lemma SecretsAreHiddenIff(o: Object)
    ensures (forall p: Object :: Alike(o, p) ==> Redacted(p) == Redacted(o)) <==> !Leaks(o)
  {
    if Leaks(o) {
      VaryIsAlike(o);
      LeakShows(o);
    } else {
      forall p: Object | Alike(o, p)
        ensures Redacted(p) == Redacted(o)
      {
        SealedBodiesRedactAlike(o, p);
      }
    }
  }

  /** A body that keeps its password: whatever the value, redaction leaves the whole body as it is. */
  lemma NestedArrayShowsSecret(secret: Json, o: Object)
    requires o == Obj(map["data" := Arr([Arr([Obj(map["password" := secret])])])])
    ensures Leaks(o) && Redacted(o) == o
  {
    var holder := Obj(map["password" := secret]);
    var inner := Arr([holder]);
    var data := Arr([inner]);
    KnownKeys();
    assert o.fields["data"] == data && data.items[0] == inner && inner.items[0] == holder;
    assert "password" in holder.fields && HoldsSecret(holder);
    assert HoldsSecret(inner) && ItemLeaks(inner) && FieldLeaks(data);
    RedactedFieldCases("data", data);
    assert RedactedField("data", data).items == data.items;
    RedactedAt(o, "data");
    assert Redacted(o).fields == o.fields;
  }

  lemma KnownKeys()
    ensures Sensitive("password") && !Sensitive("data")
  {
    assert Lower("password") == "password" && Lower("data") == "data";
  }

  /** Whether any array in a value directly contains an array. */
  ghost predicate Flat(v: Json)
    decreases v
  {
    match v
    case Obj(fields) => forall key :: key in fields ==> Flat(fields[key])
    case Arr(items) => forall i :: 0 <= i < |items| ==> !items[i].Arr? && Flat(items[i])
    case _ => true
  }

  /** Bodies without nested arrays, which is what the admin requests are, hide every secret. */
  lemma {:induction false} FlatBodiesAreSealed(o: Object)
    requires Flat(o)
    ensures !Leaks(o)
    decreases o
  {
    forall key | key in o.fields && !Sensitive(key)
      ensures !FieldLeaks(o.fields[key])
    {
      var v := o.fields[key];
      if v.Obj? {
        FlatBodiesAreSealed(v);
      } else if v.Arr? {
        forall i | 0 <= i < |v.items| && v.items[i].Obj?
          ensures !Leaks(v.items[i])
        {
          FlatBodiesAreSealed(v.items[i]);
        }
      }
    }
  }
}
