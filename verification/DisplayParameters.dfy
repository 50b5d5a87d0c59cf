// The parameter codec (frameworks/services/jni/DisplayParameters.cpp). A KeyedVector of
// String8 is a sequence of entries in strictly increasing key order; strings are C strings,
// compared byte by byte.
module DisplayParameters {
  import opened Strings

  type Entry = (string, string)

  // strcmp(a, b) < 0
  predicate Less(a: string, b: string) {
    b != [] && (a == [] || a[0] < b[0] || (a[0] == b[0] && Less(a[1..], b[1..])))
  }

  lemma {:induction false} LessTotal(a: string, b: string)
    ensures Less(a, b) || a == b || Less(b, a)
    ensures !(Less(a, b) && (a == b || Less(b, a)))
  {
    if a != [] && b != [] && a[0] == b[0] {
      LessTotal(a[1..], b[1..]);
      assert a == [a[0]] + a[1..] && b == [b[0]] + b[1..];
    }
  }

  lemma {:induction false} LessTransitive(a: string, b: string, c: string)
    requires Less(a, b) && Less(b, c)
    ensures Less(a, c)
  {
    if a != [] && a[0] == b[0] && b[0] == c[0] {
      LessTransitive(a[1..], b[1..], c[1..]);
    }
  }

  ghost predicate Sorted(kv: seq<Entry>) {
    forall i, j :: 0 <= i < j < |kv| ==> Less(kv[i].0, kv[j].0)
  }

  // KeyedVector::add: insert in order, or replace the value of an existing key.
  function Add(kv: seq<Entry>, k: string, v: string): seq<Entry> {
    if kv == [] then [(k, v)]
    else
      var last := kv[|kv| - 1];
      if last.0 == k then kv[..|kv| - 1] + [(k, v)]
      else if Less(last.0, k) then kv + [(k, v)]
      else Add(kv[..|kv| - 1], k, v) + [last]
  }

  // Adding keeps the vector sorted, binds the key, and changes no other binding.
  lemma {:induction false} AddSorted(kv: seq<Entry>, k: string, v: string)
    requires Sorted(kv)
    ensures Sorted(Add(kv, k, v))
    ensures forall e :: e in Add(kv, k, v) <==> e == (k, v) || (e in kv && e.0 != k)
  {
    if kv != [] {
      var init, last := kv[..|kv| - 1], kv[|kv| - 1];
      assert kv == init + [last];
      LessTotal(last.0, k);
      AddSorted(init, k, v);
      forall i | 0 <= i < |init|
        ensures Less(init[i].0, last.0) && (Less(last.0, k) ==> Less(init[i].0, k)) && init[i].0 != last.0
      {
        assert kv[i] == init[i];
        LessTotal(init[i].0, last.0);
        if Less(last.0, k) { LessTransitive(init[i].0, last.0, k); }
      }
      forall e | e in init ensures e.0 != last.0 && (Less(last.0, k) ==> e.0 != k) {
        var i :| 0 <= i < |init| && init[i] == e;
        if Less(last.0, k) { LessTotal(e.0, k); }
      }
      if last.0 != k && !Less(last.0, k) {
        var more := Add(init, k, v);
        forall i | 0 <= i < |more| ensures Less(more[i].0, last.0) {
          assert more[i] in more;
          if more[i] != (k, v) {
            var j :| 0 <= j < |init| && init[j] == more[i];
          }
        }
      }
    }
  }

  // ----- Flatten and unflatten -----

  function Item(e: Entry): string { e.0 + "=" + e.1 }

  function Flatten(kv: seq<Entry>): string {
    if kv == [] then ""
    else if |kv| == 1 then Item(kv[0])
    else Item(kv[0]) + ";" + Flatten(kv[1..])
  }

  // unflatten's loop, on the rest of the string and the vector filled so far.
  function Parse(s: string, kv: seq<Entry>): seq<Entry>
    decreases |s|
  {
    var eq := Find(s, '=');
    if eq == |s| then kv
    else
      var rest := s[eq + 1..];
      var semi := Find(rest, ';');
      var kv' := Add(kv, s[..eq], rest[..semi]);
      if semi == |rest| then kv' else Parse(rest[semi + 1..], kv')
  }

  function Unflatten(s: string): seq<Entry> { Parse(s, []) }

  // No '=' in a key, no ';' in a value.
  ghost predicate Clean(kv: seq<Entry>) {
    forall e :: e in kv ==> '=' !in e.0 && ';' !in e.1
  }

  lemma AddClean(kv: seq<Entry>, k: string, v: string)
    requires Sorted(kv) && Clean(kv) && '=' !in k && ';' !in v
    ensures Sorted(Add(kv, k, v)) && Clean(Add(kv, k, v))
  {
    AddSorted(kv, k, v);
    hide Add, Sorted;
  }

  // Whatever the input, unflatten yields a sorted, clean vector.
  lemma {:induction false} ParseClean(s: string, kv: seq<Entry>)
    requires Sorted(kv) && Clean(kv)
    ensures Sorted(Parse(s, kv)) && Clean(Parse(s, kv))
    decreases |s|
  {
    hide Find, Add, Sorted, Clean;
    var eq := Find(s, '=');
    if eq < |s| {
      var rest := s[eq + 1..];
      var semi := Find(rest, ';');
      AddClean(kv, s[..eq], rest[..semi]);
      if semi < |rest| {
        ParseClean(rest[semi + 1..], Add(kv, s[..eq], rest[..semi]));
      }
    }
  }

  lemma FindAt(a: string, c: char, b: string)
    requires c !in a
    ensures Find(a + [c] + b, c) == |a|
  {
    var s := a + [c] + b;
    var i := Find(s, c);
    assert s[|a|] == c;
  }

  lemma FindNone(a: string, c: char)
    requires c !in a
    ensures Find(a, c) == |a|
  {
  }

  // One item at the front of the string is one Add.
  lemma ParseItem(e: Entry, tail: string, kv: seq<Entry>)
    requires '=' !in e.0 && ';' !in e.1
    ensures Parse(Item(e), kv) == Add(kv, e.0, e.1)
    ensures Parse(Item(e) + ";" + tail, kv) == Parse(tail, Add(kv, e.0, e.1))
  {
    hide Find;
    FindAt(e.0, '=', e.1);
    FindNone(e.1, ';');
    var s := Item(e);
    assert s[..|e.0|] == e.0 && s[|e.0| + 1..] == e.1 && e.1[..|e.1|] == e.1;
    var t := Item(e) + ";" + tail;
    assert t == e.0 + ['='] + (e.1 + [';'] + tail);
    FindAt(e.0, '=', e.1 + [';'] + tail);
    FindAt(e.1, ';', tail);
    assert t[..|e.0|] == e.0;
    var rest := t[|e.0| + 1..];
    assert rest == e.1 + [';'] + tail;
    assert rest[..|e.1|] == e.1 && rest[|e.1| + 1..] == tail;
  }

  // Parsing the rest of a flattened sorted vector appends it.
  lemma {:induction false} ParseFlatten(done: seq<Entry>, todo: seq<Entry>)
    requires Sorted(done + todo) && Clean(todo)
    ensures Parse(Flatten(todo), done) == done + todo
    decreases |todo|
  {
    if todo == [] {
      assert done + todo == done;
    } else {
      var e := todo[0];
      assert (done + todo)[|done|] == e;
      assert Add(done, e.0, e.1) == done + [e] by {
        if done != [] {
          assert (done + todo)[|done| - 1] == done[|done| - 1];
          LessTotal(done[|done| - 1].0, e.0);
        }
      }
      assert done + todo == (done + [e]) + todo[1..];
      if |todo| == 1 {
        ParseItem(e, "", done);
        assert todo[1..] == [];
      } else {
        ParseItem(e, Flatten(todo[1..]), done);
        ParseFlatten(done + [e], todo[1..]);
      }
    }
  }

  // Flattening and unflattening gives a vector back exactly when it is clean.
  lemma RoundTripIff(kv: seq<Entry>)
    requires Sorted(kv)
    ensures Unflatten(Flatten(kv)) == kv <==> Clean(kv)
  {
    ParseClean(Flatten(kv), []);
    if Clean(kv) {
      assert [] + kv == kv;
      ParseFlatten([], kv);
    }
  }

  // Unflattening is stable: one more round trip changes nothing, for every string.
  lemma UnflattenStable(s: string)
    ensures Unflatten(Flatten(Unflatten(s))) == Unflatten(s)
  {
    ParseClean(s, []);
    RoundTripIff(Unflatten(s));
  }

  // The flattened text: an entry is its key, '=' and its value; entries are separated by ';'.
  lemma {:induction false} FlattenMeans(a: seq<Entry>, b: seq<Entry>, e: Entry)
    ensures Flatten([]) == "" && Flatten([e]) == e.0 + "=" + e.1
    ensures a != [] && b != [] ==> Flatten(a + b) == Flatten(a) + ";" + Flatten(b)
    decreases |a|
  {
    assert Item(e) == e.0 + "=" + e.1;
    if a != [] && b != [] {
      assert (a + b)[1..] == a[1..] + b;
      if |a| > 1 {
        FlattenMeans(a[1..], b, e);
        var head, rest, tail := Item(a[0]) + ";", Flatten(a[1..]), ";" + Flatten(b);
        assert head + (rest + tail) == (head + rest) + tail;
      }
    }
  }

  // The pair binds its key: no later pair has that key.
  ghost predicate Binds(pairs: seq<Entry>, e: Entry) {
    exists i :: BindsAt(pairs, e, i)
  }

  ghost predicate BindsAt(pairs: seq<Entry>, e: Entry, i: int) {
    0 <= i < |pairs| && pairs[i] == e && forall j :: i < j < |pairs| ==> pairs[j].0 != e.0
  }

  ghost predicate HasKey(pairs: seq<Entry>, k: string) { exists i :: 0 <= i < |pairs| && pairs[i].0 == k }

  lemma BindsCons(pairs: seq<Entry>, e: Entry)
    requires pairs != []
    ensures Binds(pairs, e) <==> Binds(pairs[1..], e) || (e == pairs[0] && !HasKey(pairs[1..], e.0))
  {
    var rest := pairs[1..];
    if Binds(rest, e) {
      var i :| BindsAt(rest, e, i);
      assert BindsAt(pairs, e, i + 1);
    } else if e == pairs[0] && !HasKey(rest, e.0) {
      assert forall j :: 0 < j < |pairs| ==> pairs[j] == rest[j - 1];
      assert BindsAt(pairs, e, 0);
    }
    if Binds(pairs, e) {
      var i :| BindsAt(pairs, e, i);
      if i > 0 {
        assert forall j :: 0 < j < |pairs| ==> pairs[j] == rest[j - 1];
        assert BindsAt(rest, e, i - 1);
      } else {
        assert forall j :: 0 <= j < |rest| ==> rest[j] == pairs[j + 1];
      }
    }
  }

  lemma HasKeyCons(pairs: seq<Entry>, k: string)
    requires pairs != []
    ensures HasKey(pairs, k) <==> pairs[0].0 == k || HasKey(pairs[1..], k)
  {
    var rest := pairs[1..];
    if HasKey(rest, k) {
      var i :| 0 <= i < |rest| && rest[i].0 == k;
      assert pairs[i + 1].0 == k;
    }
    if HasKey(pairs, k) && pairs[0].0 != k {
      var i :| 0 <= i < |pairs| && pairs[i].0 == k;
      assert rest[i - 1].0 == k;
    }
  }

  // Unflattening any pairs, in any order and with any repetition, adds to the vector exactly
  // the last value given to each key.
  lemma {:induction false} ParsePairs(kv: seq<Entry>, pairs: seq<Entry>)
    requires Sorted(kv) && Clean(pairs)
    ensures var r := Parse(Flatten(pairs), kv);
      && Sorted(r)
      && forall e :: e in r <==> Binds(pairs, e) || (e in kv && !HasKey(pairs, e.0))
    decreases |pairs|
  {
    hide Sorted, Add, Binds, HasKey;
    if pairs == [] {
      NoPairs(kv);
    } else {
      var e0, rest := pairs[0], pairs[1..];
      assert e0 in pairs && forall e :: e in rest ==> e in pairs;
      AddSorted(kv, e0.0, e0.1);
      FirstPair(kv, pairs);
      ParsePairs(Add(kv, e0.0, e0.1), rest);
      var r := Parse(Flatten(pairs), kv);
      forall e ensures e in r <==> Binds(pairs, e) || (e in kv && !HasKey(pairs, e.0)) {
        BindsCons(pairs, e);
        HasKeyCons(pairs, e.0);
        BoundHasKey(rest, e);
      }
    }
  }

  lemma BoundHasKey(pairs: seq<Entry>, e: Entry)
    ensures Binds(pairs, e) ==> HasKey(pairs, e.0)
  {
  }

  lemma NoPairs(kv: seq<Entry>)
    ensures Parse(Flatten([]), kv) == kv
    ensures forall e :: !Binds([], e) && !HasKey([], e.0)
  {
  }

  lemma FirstPair(kv: seq<Entry>, pairs: seq<Entry>)
    requires pairs != [] && Clean(pairs)
    ensures Parse(Flatten(pairs), kv) == Parse(Flatten(pairs[1..]), Add(kv, pairs[0].0, pairs[0].1))
  {
    assert pairs[0] in pairs;
    ParseItem(pairs[0], Flatten(pairs[1..]), kv);
    NoPairs(Add(kv, pairs[0].0, pairs[0].1));
    hide Add, Parse;
    if |pairs| == 1 {
      assert pairs[1..] == [];
    }
  }

  // Out of order, with the keys sorted in the result.
  lemma UnflattenExample()
    ensures Unflatten("name=x;description=y") == [("description", "y"), ("name", "x")]
  {
    hide Parse, Add;
    var name, description := ("name", "x"), ("description", "y");
    ExampleText(name, description);
    ParseItem(name, Item(description), []);
    AddExample(name, description);
    ParseItem(description, "", [name]);
  }

  lemma ExampleText(name: Entry, description: Entry)
    requires name == ("name", "x") && description == ("description", "y")
    ensures Item(name) + ";" + Item(description) == "name=x;description=y"
    ensures '=' !in name.0 && ';' !in name.1 && '=' !in description.0 && ';' !in description.1
  {
  }

  lemma AddExample(name: Entry, description: Entry)
    requires name == ("name", "x") && description == ("description", "y")
    ensures Add([], name.0, name.1) == [name]
    ensures Add([name], description.0, description.1) == [description, name]
  {
    assert name.0[0] == 'n' && description.0[0] == 'd';
    assert !Less(name.0, description.0);
    assert [name][..0] == [];
  }

  // ----- set -----

  // set refuses a key with '=' or ';' and a value with '='; the test for ';' in the value looks
  // at the key again.
  predicate SetRefuses(key: string, value: string) {
    ('=' in key || ';' in key) || ('=' in value || ';' in key)
  }

  function Set(kv: seq<Entry>, key: string, value: string): seq<Entry> {
    if SetRefuses(key, value) then kv else Add(kv, key, value)
  }

  // So set keeps a vector clean exactly when it refuses, or the value has no ';'.
  lemma SetCleanIff(kv: seq<Entry>, key: string, value: string)
    requires Sorted(kv) && Clean(kv)
    ensures Sorted(Set(kv, key, value))
    ensures Clean(Set(kv, key, value)) <==> SetRefuses(key, value) || ';' !in value
  {
    AddSorted(kv, key, value);
    if !SetRefuses(key, value) {
      assert (key, value) in Add(kv, key, value);
    }
  }

  // set binds the key to the value, and changes no other binding, if and only if the key has
  // neither '=' nor ';' and the value no '='; otherwise it changes nothing.
  lemma SetBinds(kv: seq<Entry>, key: string, value: string)
    requires Sorted(kv)
    ensures if '=' !in key && ';' !in key && '=' !in value
            then forall e :: e in Set(kv, key, value) <==> e == (key, value) || (e in kv && e.0 != key)
            else Set(kv, key, value) == kv
  {
    hide Add, Sorted;
    AddSorted(kv, key, value);
  }

  // An accepted value with a ';' does not survive the round trip.
  lemma SetBreaksRoundTrip()
    ensures var kv := Set([], "k", "a;b"); Unflatten(Flatten(kv)) != kv
  {
    var kv := Set([], "k", "a;b");
    assert "a;b"[1] == ';';
    assert kv == [("k", "a;b")] && ("k", "a;b") in kv;
    RoundTripIff(kv);
  }

  class DisplayParameters {
    var mMap: seq<Entry>

    constructor ()
      ensures mMap == []
    {
      mMap := [];
    }

    method FlattenMap() returns (flattened: string)
      ensures flattened == Flatten(mMap)
    {
      flattened := "";
      var size := |mMap|;
      assert mMap[0..] == mMap;
      for i := 0 to size
        invariant Flatten(mMap) == flattened + Flatten(mMap[i..])
      {
        var k, v := mMap[i].0, mMap[i].1;
        ghost var before, rest := flattened, mMap[i..];
        assert rest[1..] == mMap[i + 1..];
        flattened := flattened + k;
        flattened := flattened + "=";
        flattened := flattened + v;
        if i != size - 1 {
          flattened := flattened + ";";
        }
        Regroup(before, k, v, Flatten(mMap[i + 1..]));
      }
    }

    method UnflattenString(params: string)
      modifies this
      ensures mMap == Unflatten(params)
      ensures Sorted(mMap) && Clean(mMap)
    {
      mMap := [];
      var a: nat, going := 0, true;
      assert params[0..] == params;
      while going
        invariant a <= |params|
        invariant Unflatten(params) == if going then Parse(params[a..], mMap) else mMap
        decreases |params| - a, going
      {
        hide *;
        var next;
        mMap, next, going := ParseTurn(params[a..], mMap);
        assert going ==> params[a..][next..] == params[a + next..];
        a := if going then a + next else a;
      }
      ParseClean(params, []);
    }

    method SetValue(key: string, value: string)
      modifies this
      ensures mMap == Set(old(mMap), key, value)
    {
      if '=' in key || ';' in key {
        return;
      }
      if '=' in value || ';' in key {
        return;
      }
      mMap := Add(mMap, key, value);
    }
  }

  // One turn of unflatten's loop: the vector, how far the pointer moves, and whether to go on.
  method ParseTurn(rest: string, kv: seq<Entry>) returns (kv': seq<Entry>, next: nat, going: bool)
    ensures going ==> 0 < next <= |rest|
    ensures Parse(rest, kv) == if going then Parse(rest[next..], kv') else kv'
  {
    hide Add, Find;
    var eq := Find(rest, '=');
    if eq == |rest| {
      return kv, 0, false;
    }
    var value := rest[eq + 1..];
    var semi := Find(value, ';');
    kv' := Add(kv, rest[..eq], value[..semi]);
    going := semi < |value|;
    next := if going then eq + 1 + semi + 1 else 0;
    assert going ==> rest[next..] == value[semi + 1..];
  }

  lemma Regroup(before: string, k: string, v: string, tail: string)
    ensures before + k + "=" + v + ";" + tail == before + (Item((k, v)) + ";" + tail)
    ensures before + k + "=" + v == before + Item((k, v))
    ensures before + k + "=" + v + "" == before + k + "=" + v
  {
  }
}
