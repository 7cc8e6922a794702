/**
 * The employee record and the checks made on a create request's body:
 * which required fields are missing, the message that lists them, and the
 * four-field record built from a complete body.
 */
module Employees {
  import opened JsonValues

  /** A stored employee record: field name to JSON value. */
  type Item = map<string, Json>

  /** The table's contents: the value of Emp_Id to the record stored under it. */
  type Store = map<Json, Item>

  /** The fields a create request must carry, in the order they are reported. */
  const REQUIRED_FIELDS: seq<string> := ["Emp_Id", "First_Name", "Last_Name", "Date_Of_Joining"]

  const SEPARATOR: string := ", "

  const MISSING_PREFIX: string := "Missing fields: "

  ghost predicate Distinct(s: seq<string>) {
    forall i, j :: 0 <= i < j < |s| ==> s[i] != s[j]
  }

  /** s can be obtained from t by deleting elements, keeping the order of the rest. */
  ghost predicate IsSubsequence(s: seq<string>, t: seq<string>)
    decreases |t|
  {
    if s == [] then true
    else if t == [] then false
    else if s[0] == t[0] then IsSubsequence(s[1..], t[1..])
    else IsSubsequence(s, t[1..])
  }

  predicate HasRequiredFields(body: map<string, Json>) {
    forall f :: f in REQUIRED_FIELDS ==> f in body
  }

  /** The names among `names` that `body` lacks, in the order of `names`. */
  function MissingAmong(names: seq<string>, body: map<string, Json>): (missing: seq<string>)
    ensures forall f :: f in missing <==> f in names && f !in body
    ensures IsSubsequence(missing, names)
  {
    if names == [] then []
    else if names[0] in body then MissingAmong(names[1..], body)
    else [names[0]] + MissingAmong(names[1..], body)
  }

  /** The required fields that `body` lacks, in the order of REQUIRED_FIELDS. */
  function MissingFields(body: map<string, Json>): (missing: seq<string>)
    ensures forall f :: f in missing <==> f in REQUIRED_FIELDS && f !in body
    ensures IsSubsequence(missing, REQUIRED_FIELDS)
    ensures missing == [] <==> HasRequiredFields(body)
  {
    var missing := MissingAmong(REQUIRED_FIELDS, body);
    assert missing != [] ==> missing[0] in missing;
    missing
  }

  /** The names joined with ", " between consecutive ones. */
  function Join(names: seq<string>): string {
    if |names| == 0 then ""
    else if |names| == 1 then names[0]
    else names[0] + SEPARATOR + Join(names[1..])
  }

  function MissingFieldsMessage(missing: seq<string>): string {
    MISSING_PREFIX + Join(missing)
  }

  /** The record built from a complete body: the four required fields and nothing else. */
  function MakeItem(body: map<string, Json>): (item: Item)
    requires HasRequiredFields(body)
    ensures forall f :: f in item <==> f in REQUIRED_FIELDS
    ensures forall f :: f in item ==> item[f] == body[f]
  {
    map[
      "Emp_Id" := body["Emp_Id"],
      "First_Name" := body["First_Name"],
      "Last_Name" := body["Last_Name"],
      "Date_Of_Joining" := body["Date_Of_Joining"]
    ]
  }

  /** A record as the create handler stores it under `key`. */
  ghost predicate WellFormedItem(key: Json, item: Item) {
    && (forall f :: f in item <==> f in REQUIRED_FIELDS)
    && item["Emp_Id"] == key
  }

  ghost predicate WellFormedStore(store: Store) {
    forall key :: key in store ==> WellFormedItem(key, store[key])
  }

  /** A well-formed table holds no empty record: each one has its four fields. */
  lemma WellFormedStoreNonEmpty(store: Store)
    requires WellFormedStore(store)
    ensures forall key :: key in store ==> store[key] != map[]
  {
    forall key | key in store
      ensures store[key] != map[]
    {
      assert "Emp_Id" in REQUIRED_FIELDS;
    }
  }

  // ---------------------------------------------------------------------
  // The missing-field list is exactly the ordered subsequence of absent fields.
  // ---------------------------------------------------------------------

  lemma {:induction false} SubsequenceMembers(s: seq<string>, t: seq<string>)
    requires IsSubsequence(s, t)
    ensures forall x :: x in s ==> x in t
    decreases |t|
  {
    if s != [] && t != [] {
      if s[0] == t[0] {
        SubsequenceMembers(s[1..], t[1..]);
        assert forall x :: x in s ==> x == s[0] || x in s[1..];
      } else {
        SubsequenceMembers(s, t[1..]);
      }
    }
  }

  /** In a list without repeats, a subsequence that contains the first element starts with it. */
  lemma SubsequenceHead(s: seq<string>, t: seq<string>)
    requires IsSubsequence(s, t) && Distinct(t)
    requires t != [] && t[0] in s
    ensures s[0] == t[0]
  {
    if s[0] != t[0] {
      SubsequenceMembers(s, t[1..]);
    }
  }

  /** Two subsequences of a list without repeats that have the same elements are equal. */
  lemma {:induction false} SubsequenceUnique(s1: seq<string>, s2: seq<string>, t: seq<string>)
    requires Distinct(t)
    requires IsSubsequence(s1, t) && IsSubsequence(s2, t)
    requires forall x :: x in s1 <==> x in s2
    ensures s1 == s2
    decreases |t|
  {
    if t == [] {
    } else if t[0] in s1 {
      SubsequenceHead(s1, t);
      SubsequenceHead(s2, t);
      SubsequenceMembers(s1[1..], t[1..]);
      SubsequenceMembers(s2[1..], t[1..]);
      assert t[0] !in t[1..];
      forall x
        ensures x in s1[1..] <==> x in s2[1..]
      {
        assert x in s1 <==> x == s1[0] || x in s1[1..];
        assert x in s2 <==> x == s2[0] || x in s2[1..];
      }
      SubsequenceUnique(s1[1..], s2[1..], t[1..]);
      assert s1 == [s1[0]] + s1[1..];
      assert s2 == [s2[0]] + s2[1..];
    } else {
      assert s1 != [] ==> s1[0] != t[0];
      assert s2 != [] ==> s2[0] != t[0];
      SubsequenceUnique(s1, s2, t[1..]);
    }
  }

  /**
   * Any ordered selection of required fields that names exactly the absent
   * ones is the missing-field list.
   */
  lemma MissingFieldsExact(body: map<string, Json>, s: seq<string>)
    requires IsSubsequence(s, REQUIRED_FIELDS)
    requires forall f :: f in s <==> f in REQUIRED_FIELDS && f !in body
    ensures s == MissingFields(body)
  {
    SubsequenceUnique(s, MissingFields(body), REQUIRED_FIELDS);
  }

  // ---------------------------------------------------------------------
  // The message names exactly the missing fields.
  // ---------------------------------------------------------------------

  /** A name that can be recovered from a ", "-joined list: non-empty, without a comma. */
  predicate Plain(name: string) {
    name != "" && ',' !in name
  }

  lemma {:induction false} JoinNonEmpty(names: seq<string>)
    requires names != [] && Plain(names[0])
    ensures Join(names) != []
  {
  }

  /** Joining two or more names puts a comma right after the first name, followed by the join of the rest. */
  lemma JoinFirstComma(names: seq<string>)
    requires |names| >= 2
    ensures |Join(names)| > |names[0]|
    ensures Join(names)[|names[0]|] == ','
    ensures Join(names)[..|names[0]|] == names[0]
    ensures Join(names)[|names[0]| + 2..] == Join(names[1..])
  {
  }

  /** Joining plain names loses nothing: the joined text determines the list. */
  lemma {:induction false} JoinInjective(a: seq<string>, b: seq<string>)
    requires forall n :: n in a ==> Plain(n)
    requires forall n :: n in b ==> Plain(n)
    requires Join(a) == Join(b)
    ensures a == b
    decreases |a|, 1
  {
    if |a| == 0 {
      if |b| > 0 {
        assert b[0] in b;
        JoinNonEmpty(b);
      }
    } else if |b| == 0 {
      assert a[0] in a;
      JoinNonEmpty(a);
    } else if |a| == 1 && |b| == 1 {
    } else {
      assert a[0] in a && b[0] in b;
      JoinInjectiveCons(a, b);
    }
  }

  /** The step of JoinInjective for two non-empty lists, not both of length one. */
  lemma {:induction false} JoinInjectiveCons(a: seq<string>, b: seq<string>)
    requires forall n :: n in a ==> Plain(n)
    requires forall n :: n in b ==> Plain(n)
    requires |a| >= 1 && |b| >= 1 && (|a| > 1 || |b| > 1)
    requires Join(a) == Join(b)
    ensures a == b
    decreases |a|, 0
  {
    assert Plain(a[0]) by { assert a[0] in a; }
    assert Plain(b[0]) by { assert b[0] in b; }
    if |a| == 1 {
      JoinFirstComma(b);
    } else if |b| == 1 {
      JoinFirstComma(a);
    } else {
      JoinFirstComma(a);
      JoinFirstComma(b);
      if |a[0]| == |b[0]| {
        assert a[0] == b[0];
        JoinInjective(a[1..], b[1..]);
        assert a == [a[0]] + a[1..];
        assert b == [b[0]] + b[1..];
      }
    }
  }

  lemma RequiredFieldsArePlain()
    ensures forall f :: f in REQUIRED_FIELDS ==> Plain(f)
  {
  }

  /**
   * Two bodies get the same "Missing fields" message exactly when they lack the
   * same required fields, so the message reports the missing fields faithfully.
   */
  lemma MissingMessageInjective(body1: map<string, Json>, body2: map<string, Json>)
    ensures MissingFieldsMessage(MissingFields(body1)) == MissingFieldsMessage(MissingFields(body2))
        <==> MissingFields(body1) == MissingFields(body2)
  {
    var m1, m2 := MissingFields(body1), MissingFields(body2);
    if MissingFieldsMessage(m1) == MissingFieldsMessage(m2) {
      RequiredFieldsArePlain();
      var p := |MISSING_PREFIX|;
      assert Join(m1) == MissingFieldsMessage(m1)[p..];
      assert Join(m2) == MissingFieldsMessage(m2)[p..];
      JoinInjective(m1, m2);
    }
  }
}
