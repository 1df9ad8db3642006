/**
 Nested objects whose keys have an order, and the merge `{ ...current, ...desired }` that keeps
 foreign metadata (src/server/infrastructure/stream.provider.ts).
 */
module Metadata {
  import opened Options
  import opened StreamConfigDiff

  function FieldOf(fields: seq<Field>, key: string): Option<string> {
    if fields == [] then None
    else if fields[0].0 == key then Some(fields[0].1)
    else FieldOf(fields[1..], key)
  }

  function KeysOf(fields: seq<Field>): set<string> {
    set f | f in fields :: f.0
  }

  /** A key that is there keeps its place, a new one comes last. */
  function SetField(fields: seq<Field>, key: string, value: string): seq<Field> {
    if fields == [] then [(key, value)]
    else if fields[0].0 == key then [(key, value)] + fields[1..]
    else [fields[0]] + SetField(fields[1..], key, value)
  }

  lemma KeysOfCons(first: Field, rest: seq<Field>)
    ensures KeysOf([first] + rest) == {first.0} + KeysOf(rest)
  {
    assert forall f :: f in [first] + rest <==> f == first || f in rest;
  }

  lemma {:induction false} KeysAfterSet(fields: seq<Field>, key: string, value: string)
    ensures KeysOf(SetField(fields, key, value)) == KeysOf(fields) + {key}
  {
    if fields == [] {
      assert [(key, value)] + [] == [(key, value)];
      KeysOfCons((key, value), []);
    } else {
      assert fields == [fields[0]] + fields[1..];
      KeysOfCons(fields[0], fields[1..]);
      KeysOfCons((key, value), fields[1..]);
      KeysAfterSet(fields[1..], key, value);
      KeysOfCons(fields[0], SetField(fields[1..], key, value));
    }
  }

  lemma {:induction false} SetKeepsDistinct(fields: Fields, key: string, value: string)
    ensures DistinctKeys(SetField(fields, key, value))
    decreases |fields|
  {
    if fields != [] && fields[0].0 != key {
      var rest := SetField(fields[1..], key, value);
      SetKeepsDistinct(fields[1..], key, value);
      KeysAfterSet(fields[1..], key, value);
      forall i | 0 <= i < |rest|
        ensures rest[i].0 != fields[0].0
      {
        assert rest[i] in rest && rest[i].0 in KeysOf(rest);
      }
    }
  }

  lemma {:induction false} SetSame(fields: seq<Field>, key: string, value: string)
    requires FieldOf(fields, key) == Some(value)
    ensures SetField(fields, key, value) == fields
  {
    if fields[0].0 != key {
      SetSame(fields[1..], key, value);
    }
  }

  lemma {:induction false} FieldAfterSet(fields: seq<Field>, key: string, value: string, k: string)
    ensures FieldOf(SetField(fields, key, value), k) == if k == key then Some(value) else FieldOf(fields, k)
  {
    if fields != [] {
      if fields[0].0 == key {
        assert ([(key, value)] + fields[1..])[1..] == fields[1..];
      } else {
        FieldAfterSet(fields[1..], key, value, k);
        var rest := SetField(fields[1..], key, value);
        assert ([fields[0]] + rest)[1..] == rest;
      }
    }
  }

  function MergeFields(current: Fields, desired: seq<Field>): Fields {
    if desired == [] then current
    else
      var merged, last := MergeFields(current, desired[..|desired|-1]), desired[|desired|-1];
      SetKeepsDistinct(merged, last.0, last.1);
      SetField(merged, last.0, last.1)
  }

  lemma {:induction false} FieldOfSnoc(fields: seq<Field>, last: Field, k: string)
    ensures FieldOf(fields + [last], k) ==
            if FieldOf(fields, k).Some? then FieldOf(fields, k) else if last.0 == k then Some(last.1) else None
  {
    if fields == [] {
      assert fields + [last] == [last];
    } else {
      assert (fields + [last])[1..] == fields[1..] + [last];
      FieldOfSnoc(fields[1..], last, k);
    }
  }

  lemma {:induction false} FieldIsThere(fields: seq<Field>, k: string)
    ensures FieldOf(fields, k).Some? <==> k in KeysOf(fields)
  {
    if fields != [] {
      assert forall f :: f in fields <==> f == fields[0] || f in fields[1..];
      FieldIsThere(fields[1..], k);
    }
  }

  /** Desired fields win, the others stay. */
  lemma {:induction false} MergedField(current: Fields, desired: Fields, k: string)
    ensures FieldOf(MergeFields(current, desired), k) ==
            if FieldOf(desired, k).Some? then FieldOf(desired, k) else FieldOf(current, k)
    decreases |desired|
  {
    if desired != [] {
      var front, last := desired[..|desired|-1], desired[|desired|-1];
      assert desired == front + [last];
      MergedField(current, front, k);
      FieldAfterSet(MergeFields(current, front), last.0, last.1, k);
      FieldOfSnoc(front, last, k);
      FieldIsThere(front, k);
      assert last.0 !in KeysOf(front);
    }
  }

  /** Merging what is there already changes nothing, not even the order. */
  lemma {:induction false} MergeOfKept(fields: Fields, desired: seq<Field>)
    requires forall f :: f in desired ==> FieldOf(fields, f.0) == Some(f.1)
    ensures MergeFields(fields, desired) == fields
    decreases |desired|
  {
    if desired != [] {
      var last := desired[|desired|-1];
      MergeOfKept(fields, desired[..|desired|-1]);
      SetSame(fields, last.0, last.1);
    }
  }

  lemma {:induction false} OwnField(fields: Fields, f: Field)
    requires f in fields
    ensures FieldOf(fields, f.0) == Some(f.1)
    decreases |fields|
  {
    if f != fields[0] {
      assert f in fields[1..];
      OwnField(fields[1..], f);
      var i :| 0 <= i < |fields| && fields[i] == f;
    }
  }

  /** Fields that agree with a merge, in whatever order, already hold what was merged in. */
  lemma MergeIsStable(stored: Fields, current: Fields, desired: Fields)
    requires forall k :: FieldOf(stored, k) == FieldOf(MergeFields(current, desired), k)
    ensures MergeFields(stored, desired) == stored
  {
    forall f | f in desired
      ensures FieldOf(stored, f.0) == Some(f.1)
    {
      OwnField(desired, f);
      MergedField(current, desired, f.0);
    }
    MergeOfKept(stored, desired);
  }
}
