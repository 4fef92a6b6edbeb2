/** From the free-text "company year" field to report names.
    Normalising: split on commas, drop empty segments (before stripping),
    then strip, lower-case, replace every space with '-' and append ".pdf".
    Resolving: each key becomes the first known report name whose lower-case
    form contains it; keys with no match are dropped. */
module ReportKeys {
  import opened Wrappers
  import opened PyStr

  const Extension := ".pdf"

  /** One segment of the input as a report key. */
  function ReportKey(segment: string): (k: string)
    ensures |k| >= |Extension| && k[|k| - |Extension|..] == Extension
    ensures ' ' !in k
    ensures IsLower(k)
  {
    var lowered := Lower(Strip(segment));
    LowerIdempotent(Strip(segment));
    var dashed := ReplaceChar(lowered, ' ', '-');
    ReplaceKeepsLower(lowered, ' ', '-');
    ExtensionShape();
    LowerAppend(dashed, Extension);
    var k := dashed + Extension;
    assert k[|k| - |Extension|..] == Extension;
    k
  }

  lemma ExtensionShape()
    ensures IsLower(Extension) && ' ' !in Extension
  {
    assert forall i :: 0 <= i < |Extension| ==> Extension[i] in ".pdf";
  }

  /** The list comprehension over the split input: empty segments are skipped. */
  function KeysOf(segments: seq<string>): (keys: seq<string>)
    ensures |keys| <= |segments|
    ensures forall i :: 0 <= i < |keys| ==>
              |keys[i]| >= |Extension| && ' ' !in keys[i] && IsLower(keys[i])
    decreases |segments|
  {
    if |segments| == 0 then []
    else (if segments[0] == "" then [] else [ReportKey(segments[0])]) + KeysOf(segments[1..])
  }

  /** The report keys for the raw "company year" field. */
  function Normalise(raw: string): (keys: seq<string>)
    ensures |keys| <= |Split(raw, ',')|
    ensures forall i :: 0 <= i < |keys| ==> |keys[i]| >= |Extension|
  {
    KeysOf(Split(raw, ','))
  }

  lemma {:induction false} KeysOfAppend(a: seq<string>, b: seq<string>)
    ensures KeysOf(a + b) == KeysOf(a) + KeysOf(b)
    decreases |a|
  {
    if |a| == 0 {
      assert a + b == b;
    } else {
      assert a + b == [a[0]] + (a[1..] + b);
      KeysOfCons(a[0], a[1..] + b);
      KeysOfAppend(a[1..], b);
    }
  }

  lemma KeysOfCons(segment: string, rest: seq<string>)
    ensures KeysOf([segment] + rest) == (if segment == "" then [] else [ReportKey(segment)]) + KeysOf(rest)
  {
    assert ([segment] + rest)[1..] == rest;
  }

  /** Normalising keeps input order: the keys of "a,b" are the keys of "a"
      followed by the keys of "b". */
  lemma NormaliseAppend(a: string, b: string)
    ensures Normalise(a + [','] + b) == Normalise(a) + Normalise(b)
  {
    SplitAppend(a, b, ',');
    KeysOfAppend(Split(a, ','), Split(b, ','));
  }

  /** A single non-empty segment gives exactly its own key. */
  lemma NormaliseSegment(segment: string)
    requires segment != "" && ',' !in segment
    ensures Normalise(segment) == [ReportKey(segment)]
  {
    SplitPrefix(segment, "", ',');
    assert segment + "" == segment;
    assert Split(segment, ',') == [segment];
  }

  /** A whitespace-only segment is not empty, so it is kept, and becomes ".pdf". */
  lemma WhitespaceSegmentKey(segment: string)
    requires forall i :: 0 <= i < |segment| ==> IsSpace(segment[i])
    ensures ReportKey(segment) == Extension
  {
    StripAllSpace(segment);
    assert ReplaceChar(Lower(""), ' ', '-') == "";
  }

  /** The input yields no key exactly when it consists of commas only
      (including the empty input). */
  lemma {:induction false} NormaliseEmptyIff(raw: string)
    ensures Normalise(raw) == [] <==> forall i :: 0 <= i < |raw| ==> raw[i] == ','
    decreases |raw|
  {
    if |raw| > 0 {
      var rest := Split(raw[1..], ',');
      NormaliseEmptyIff(raw[1..]);
      if raw[0] == ',' {
        assert Split(raw, ',') == [""] + rest;
        assert ([""] + rest)[1..] == rest;
        assert forall i :: 1 <= i < |raw| ==> raw[i] == raw[1..][i - 1];
      } else {
        var parts := Split(raw, ',');
        assert parts[0] == [raw[0]] + rest[0];
        assert parts[0] != "";
      }
    }
  }

  /** A segment and its lower-case form give the same key. */
  lemma ReportKeyLower(segment: string)
    ensures ReportKey(Lower(segment)) == ReportKey(segment)
  {
    StripLower(segment);
    LowerIdempotent(Strip(segment));
  }

  lemma {:induction false} KeysOfLower(segments: seq<string>)
    ensures KeysOf(LowerAll(segments)) == KeysOf(segments)
    decreases |segments|
  {
    if |segments| > 0 {
      KeysOfLower(segments[1..]);
      assert LowerAll(segments)[1..] == LowerAll(segments[1..]);
      ReportKeyLower(segments[0]);
    }
  }

  /** The case of the "company year" field plays no part: lower-casing the
      input first gives the same keys. */
  lemma NormaliseIgnoresCase(raw: string)
    ensures Normalise(Lower(raw)) == Normalise(raw)
  {
    SplitLower(raw);
    KeysOfLower(Split(raw, ','));
  }

  // ---------------------------------------------------------------------
  // Resolution

  /** Whether the report `name` is selected by `key`: the lower-cased name
      contains the key. */
  predicate Selects(name: string, key: string) {
    Contains(Lower(name), key)
  }

  /** The position of the first name selected by `key`, as `next(...)` over
      the generator finds it. */
  function FirstMatch(key: string, names: seq<string>): (r: Option<nat>)
    ensures r.Some? ==> r.value < |names| && Selects(names[r.value], key)
                        && forall j :: 0 <= j < r.value ==> !Selects(names[j], key)
    ensures r.None? ==> forall j :: 0 <= j < |names| ==> !Selects(names[j], key)
    decreases |names|
  {
    if |names| == 0 then None
    else if Selects(names[0], key) then Some(0)
    else match FirstMatch(key, names[1..])
      case None => None
      case Some(i) => Some(i + 1)
  }

  /** One loop iteration: the matched name, kept only if it is truthy. */
  function ResolveKey(key: string, names: seq<string>): (m: seq<string>)
    ensures |m| <= 1
    ensures |m| == 1 ==> m[0] in names && Selects(m[0], key)
  {
    match FirstMatch(key, names)
    case None => []
    case Some(i) => if names[i] != "" then [names[i]] else []
  }

  /** The matched names, in key order, possibly with repeats. */
  function Resolve(keys: seq<string>, names: seq<string>): (matched: seq<string>)
    ensures |matched| <= |keys|
    ensures forall i :: 0 <= i < |matched| ==> matched[i] in names
    decreases |keys|
  {
    if |keys| == 0 then [] else ResolveKey(keys[0], names) + Resolve(keys[1..], names)
  }

  /** For a non-empty key the truthiness test never drops a match: the key
      resolves to the first selecting name, or to nothing if none selects it. */
  lemma ResolveKeyFirst(key: string, names: seq<string>)
    requires key != ""
    ensures FirstMatch(key, names).Some? ==> ResolveKey(key, names) == [names[FirstMatch(key, names).value]]
    ensures FirstMatch(key, names).None? <==> ResolveKey(key, names) == []
  {
    if FirstMatch(key, names).Some? {
      var i := FirstMatch(key, names).value;
      if names[i] == "" {
        ContainsEmptyHay(key);
      }
    }
  }

  /** Resolution runs key by key: resolving a concatenation concatenates. */
  lemma {:induction false} ResolveAppend(a: seq<string>, b: seq<string>, names: seq<string>)
    ensures Resolve(a + b, names) == Resolve(a, names) + Resolve(b, names)
    decreases |a|
  {
    if |a| == 0 {
      assert a + b == b;
    } else {
      assert (a + b)[1..] == a[1..] + b;
      ResolveAppend(a[1..], b, names);
    }
  }

  /** Nothing resolves exactly when no name selects any of the (non-empty) keys. */
  lemma {:induction false} ResolveEmptyIff(keys: seq<string>, names: seq<string>)
    requires forall i :: 0 <= i < |keys| ==> keys[i] != ""
    ensures Resolve(keys, names) == [] <==>
              forall i, j :: 0 <= i < |keys| && 0 <= j < |names| ==> !Selects(names[j], keys[i])
    decreases |keys|
  {
    if |keys| > 0 {
      ResolveKeyFirst(keys[0], names);
      ResolveEmptyIff(keys[1..], names);
      if Resolve(keys, names) == [] {
        forall i, j | 0 <= i < |keys| && 0 <= j < |names| ensures !Selects(names[j], keys[i]) {
          if i > 0 {
            assert keys[i] == keys[1..][i - 1];
          }
        }
      } else if ResolveKey(keys[0], names) != [] {
        var m := FirstMatch(keys[0], names).value;
        assert Selects(names[m], keys[0]);
      } else {
        assert Resolve(keys[1..], names) != [];
        var i, j :| 0 <= i < |keys[1..]| && 0 <= j < |names| && Selects(names[j], keys[1..][i]);
        assert Selects(names[j], keys[i + 1]);
      }
    }
  }

  /** Matching ignores the case of the stored name: a name selects a key
      exactly when its lower-case form does, so two names that differ only
      in case select the same keys. */
  lemma CaseInsensitiveMatch(name: string, other: string, key: string)
    ensures Selects(name, key) <==> Selects(Lower(name), key)
    ensures Lower(name) == Lower(other) ==> (Selects(name, key) <==> Selects(other, key))
  {
    LowerIdempotent(name);
  }
}
