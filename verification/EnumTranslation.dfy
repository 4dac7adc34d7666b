/**
  Two translations of wire codes (enum_translation.py): display keys, which must tell all codes apart, and
  the plain table lookup, which need not find its way back.
 */
module EnumTranslation {
  import opened Common

  const PREFIX := "pointt:"

  /** One entry of an alias table; a table lists its entries in insertion order. */
  datatype Alias = Alias(raw: string, translated: string)

  predicate HasAlias(table: seq<Alias>, raw: string) { exists i :: 0 <= i < |table| && table[i].raw == raw }

  predicate IsTranslation(table: seq<Alias>, text: string) { exists i :: 0 <= i < |table| && table[i].translated == text }

  /** `aliases.get(raw, raw)` */
  function ToHa(table: seq<Alias>, raw: string): string {
    if table == [] then raw else if table[0].raw == raw then table[0].translated else ToHa(table[1..], raw)
  }

  /** The first wire code with this translation. */
  function Canonical(table: seq<Alias>, text: string): (r: Option<string>)
    ensures r.Some? <==> IsTranslation(table, text)
  {
    if table == [] then None
    else if table[0].translated == text then
      assert table[0].translated == text;
      Some(table[0].raw)
    else
      var rest := Canonical(table[1..], text);
      assert forall i :: 0 <= i < |table[1..]| ==> table[1..][i] == table[i + 1];
      assert IsTranslation(table, text) <==> IsTranslation(table[1..], text) by {
        if IsTranslation(table, text) {
          var i :| 0 <= i < |table| && table[i].translated == text;
          assert table[1..][i - 1].translated == text;
        }
      }
      rest
  }

  predicate Reserved(table: seq<Alias>, raw: string) {
    IsTranslation(table, raw) || HasAlias(table, raw) || PREFIX <= raw
  }

  /** The display key of one wire code. */
  function KeyOf(table: seq<Alias>, raw: string): string {
    if Canonical(table, ToHa(table, raw)) == Some(raw) then ToHa(table, raw)
    else if Reserved(table, raw) then PREFIX + raw
    else raw
  }

  lemma {:induction false} TranslatedIsListed(table: seq<Alias>, raw: string)
    ensures if HasAlias(table, raw) then IsTranslation(table, ToHa(table, raw)) else ToHa(table, raw) == raw
  {
    if table != [] {
      assert forall i :: 0 <= i < |table[1..]| ==> table[1..][i] == table[i + 1];
      TranslatedIsListed(table[1..], raw);
      if table[0].raw == raw {
        assert table[0].translated == ToHa(table, raw);
      } else {
        TailAliases(table, raw);
        if HasAlias(table, raw) {
          var i :| 0 <= i < |table[1..]| && table[1..][i].translated == ToHa(table[1..], raw);
          assert table[i + 1].translated == ToHa(table, raw);
        }
      }
    }
  }

  lemma TailAliases(table: seq<Alias>, raw: string)
    requires table != [] && table[0].raw != raw
    ensures HasAlias(table, raw) <==> HasAlias(table[1..], raw)
  {
    if HasAlias(table, raw) {
      var i :| 0 <= i < |table| && table[i].raw == raw;
      assert table[1..][i - 1].raw == raw;
    }
    if HasAlias(table[1..], raw) {
      var i :| 0 <= i < |table[1..]| && table[1..][i].raw == raw;
      assert table[i + 1].raw == raw;
    }
  }

  lemma {:induction false} CanonicalIsAlias(table: seq<Alias>, text: string)
    requires Canonical(table, text).Some?
    ensures HasAlias(table, Canonical(table, text).value)
  {
    if table[0].translated == text {
      assert table[0].raw == Canonical(table, text).value;
    } else {
      CanonicalIsAlias(table[1..], text);
      var raw := Canonical(table[1..], text).value;
      var i :| 0 <= i < |table[1..]| && table[1..][i].raw == raw;
      assert table[i + 1].raw == raw;
    }
  }

  /** How a code gets its key. */
  datatype Form = Plain | Translated | Escaped

  function FormOf(table: seq<Alias>, raw: string): Form {
    if Canonical(table, ToHa(table, raw)) == Some(raw) then Translated else if Reserved(table, raw) then Escaped else Plain
  }

  // A translated key names its code; a plain key is no translation and carries no prefix.
  lemma KeyForms(table: seq<Alias>, raw: string)
    ensures var key := KeyOf(table, raw);
            match FormOf(table, raw)
            case Translated => IsTranslation(table, key) && Canonical(table, key) == Some(raw)
            case Escaped => key == PREFIX + raw
            case Plain => key == raw && !IsTranslation(table, key) && !(PREFIX <= key)
  {
  }

  /** The translation of this entry is the key of its code, and reads like the escape of a code that is escaped. */
  ghost predicate Clashes(table: seq<Alias>, i: nat)
    requires i < |table|
  {
    && PREFIX <= table[i].translated && ToHa(table, table[i].raw) == table[i].translated
    && Canonical(table, table[i].translated) == Some(table[i].raw)
    && FormOf(table, table[i].translated[|PREFIX|..]) == Escaped
  }

  ghost predicate NoClash(table: seq<Alias>) { forall i :: 0 <= i < |table| ==> !Clashes(table, i) }

  ghost predicate Lossless(table: seq<Alias>) {
    forall a, b :: KeyOf(table, a) == KeyOf(table, b) ==> a == b
  }

  /** The first entry for this code has this translation. */
  ghost predicate FirstFor(table: seq<Alias>, raw: string, text: string) {
    exists i :: 0 <= i < |table| && table[i] == Alias(raw, text) && forall j :: 0 <= j < i ==> table[j].raw != raw
  }

  /** The first entry with this translation is for this code. */
  ghost predicate FirstWith(table: seq<Alias>, raw: string, text: string) {
    exists i :: 0 <= i < |table| && table[i] == Alias(raw, text) && forall j :: 0 <= j < i ==> table[j].translated != text
  }

  lemma {:induction false} ToHaIsFirst(table: seq<Alias>, raw: string)
    requires HasAlias(table, raw)
    ensures FirstFor(table, raw, ToHa(table, raw))
  {
    if table[0].raw == raw {
      assert table[0] == Alias(raw, ToHa(table, raw));
    } else {
      TailAliases(table, raw);
      ToHaIsFirst(table[1..], raw);
      var i :| 0 <= i < |table[1..]| && table[1..][i] == Alias(raw, ToHa(table, raw)) && forall j :: 0 <= j < i ==> table[1..][j].raw != raw;
      assert table[i + 1] == Alias(raw, ToHa(table, raw));
      forall j | 0 <= j < i + 1 ensures table[j].raw != raw {
        assert j > 0 ==> table[j] == table[1..][j - 1];
      }
    }
  }

  lemma {:induction false} CanonicalIsFirst(table: seq<Alias>, text: string)
    requires Canonical(table, text).Some?
    ensures FirstWith(table, Canonical(table, text).value, text)
  {
    var raw := Canonical(table, text).value;
    if table[0].translated == text {
      assert table[0] == Alias(raw, text);
    } else {
      CanonicalIsFirst(table[1..], text);
      var i :| 0 <= i < |table[1..]| && table[1..][i] == Alias(raw, text) && forall j :: 0 <= j < i ==> table[1..][j].translated != text;
      assert table[i + 1] == Alias(raw, text);
      forall j | 0 <= j < i + 1 ensures table[j].translated != text {
        assert j > 0 ==> table[j] == table[1..][j - 1];
      }
    }
  }

  lemma OneFirst(table: seq<Alias>, a: string, b: string, text: string)
    requires FirstWith(table, a, text) && FirstWith(table, b, text)
    ensures a == b
  {
  }

  // A code has its translation as key exactly if no earlier entry gives the same translation to another code; a code that
  // is mentioned in the table, or looks escaped, is escaped otherwise.
  lemma KeyExactly(table: seq<Alias>, raw: string)
    ensures FormOf(table, raw) == Translated <==> exists text :: FirstFor(table, raw, text) && FirstWith(table, raw, text)
    ensures FormOf(table, raw) == Plain <==>
              !("pointt:" <= raw) && forall i :: 0 <= i < |table| ==> table[i].raw != raw && table[i].translated != raw
  {
    var text := ToHa(table, raw);
    TranslatedIsListed(table, raw);
    if HasAlias(table, raw) {
      ToHaIsFirst(table, raw);
      CanonicalIsFirst(table, text);
      if FirstWith(table, raw, text) {
        OneFirst(table, raw, Canonical(table, text).value, text);
      }
    } else if IsTranslation(table, raw) {
      CanonicalIsAlias(table, raw);
    }
    if other :| FirstFor(table, raw, other) && FirstWith(table, raw, other) {
      assert HasAlias(table, raw);
      OneTranslation(table, raw, other, text);
    }
  }

  lemma OneTranslation(table: seq<Alias>, raw: string, a: string, b: string)
    requires FirstFor(table, raw, a) && FirstFor(table, raw, b)
    ensures a == b
  {
  }

  // All codes whatsoever have different keys exactly when no entry of the table clashes.
  lemma LosslessExactly(table: seq<Alias>)
    ensures Lossless(table) <==> NoClash(table)
  {
    if NoClash(table) {
      forall a, b | KeyOf(table, a) == KeyOf(table, b) ensures a == b {
        KeysDiffer(table, a, b);
      }
    }
    if Lossless(table) {
      forall i | 0 <= i < |table| ensures !Clashes(table, i) {
        if Clashes(table, i) {
          ClashLoses(table, i);
        }
      }
    }
  }

  lemma ClashLoses(table: seq<Alias>, i: nat)
    requires i < |table| && Clashes(table, i)
    ensures var other := table[i].translated[|PREFIX|..]; other != table[i].raw && KeyOf(table, other) == KeyOf(table, table[i].raw)
  {
    assert table[i].translated == PREFIX + table[i].translated[|PREFIX|..];
  }

  lemma KeysDiffer(table: seq<Alias>, a: string, b: string)
    requires NoClash(table) && KeyOf(table, a) == KeyOf(table, b)
    ensures a == b
  {
    KeyForms(table, a);
    KeyForms(table, b);
    if FormOf(table, a) == Escaped && FormOf(table, b) == Escaped {
      assert (PREFIX + a)[|PREFIX|..] == a && (PREFIX + b)[|PREFIX|..] == b;
    } else if FormOf(table, a) == Translated && FormOf(table, b) == Escaped {
      NotEscapedToo(table, a, b);
    } else if FormOf(table, b) == Translated && FormOf(table, a) == Escaped {
      NotEscapedToo(table, b, a);
    }
  }

  lemma NotEscapedToo(table: seq<Alias>, a: string, b: string)
    requires NoClash(table) && FormOf(table, a) == Translated && FormOf(table, b) == Escaped
    ensures KeyOf(table, a) != KeyOf(table, b)
  {
    CanonicalIsAlias(table, ToHa(table, a));
    var i := EntryOf(table, a);
    assert !Clashes(table, i);
    assert (PREFIX + b)[|PREFIX|..] == b;
  }

  // A code with an alias is translated by one of its entries.
  lemma {:induction false} EntryOf(table: seq<Alias>, raw: string) returns (i: nat)
    requires HasAlias(table, raw)
    ensures i < |table| && table[i] == Alias(raw, ToHa(table, raw))
  {
    if table[0].raw == raw {
      i := 0;
    } else {
      TailAliases(table, raw);
      i := EntryOf(table[1..], raw);
      i := i + 1;
    }
  }

  // Translations without the escape prefix are enough.
  lemma UnprefixedTranslationsAreLossless(table: seq<Alias>)
    requires forall i :: 0 <= i < |table| ==> !(PREFIX <= table[i].translated)
    ensures Lossless(table)
  {
    assert forall i :: 0 <= i < |table| ==> !Clashes(table, i);
    LosslessExactly(table);
  }

  const PREFIXED_TABLE: seq<Alias> := [Alias("x", "pointt:w"), Alias("y", "z"), Alias("w", "z")]

  // A prefixed translation can swallow another code.
  lemma PrefixedTranslationLoses()
    ensures KeyOf(PREFIXED_TABLE, "x") == KeyOf(PREFIXED_TABLE, "w") && !Lossless(PREFIXED_TABLE)
  {
    var table := PREFIXED_TABLE;
    assert table[1..] == [Alias("y", "z"), Alias("w", "z")] && table[1..][1..] == [Alias("w", "z")];
    assert ToHa(table, "x") == "pointt:w" && Canonical(table, "pointt:w") == Some("x");
    assert ToHa(table, "w") == "z" && Canonical(table, "z") == Some("y");
    assert table[2].raw == "w" && HasAlias(table, "w");
    assert "x" != "w";
  }

  /** Every code has its key, and every key a code of its own. */
  ghost predicate MapsKeys(table: seq<Alias>, values: seq<string>, options: map<string, string>) {
    && (forall i :: 0 <= i < |values| ==> KeyOf(table, values[i]) in options)
    && (forall k :: k in options ==> options[k] in values && KeyOf(table, options[k]) == k)
  }

  /** Display keys of the advertised codes; with equal keys the last code wins. */
  method WritableOptions(table: seq<Alias>, values: seq<string>) returns (options: map<string, string>)
    ensures MapsKeys(table, values, options)
  {
    options := map[];
    for i := 0 to |values|
      invariant MapsKeys(table, values[..i], options)
    {
      var raw := values[i];
      var translated := ToHa(table, raw);
      var key;
      if Canonical(table, translated) == Some(raw) {
        key := translated;
      } else if Reserved(table, raw) {
        key := PREFIX + raw;
      } else {
        key := raw;
      }
      MapsNext(table, values[..i], options, raw);
      assert values[..i + 1] == values[..i] + [raw];
      options := options[key := raw];
    }
    assert values[..|values|] == values;
  }

  lemma MapsNext(table: seq<Alias>, values: seq<string>, options: map<string, string>, raw: string)
    requires MapsKeys(table, values, options)
    ensures MapsKeys(table, values + [raw], options[KeyOf(table, raw) := raw])
  {
  }

  // Looking up the key of an advertised code returns that code.
  lemma LookupReturnsCode(table: seq<Alias>, values: seq<string>, options: map<string, string>, v: string)
    requires MapsKeys(table, values, options) && Lossless(table) && v in values
    ensures KeyOf(table, v) in options && options[KeyOf(table, v)] == v
  {
    var i :| 0 <= i < |values| && values[i] == v;
    assert KeyOf(table, values[i]) in options;
    assert KeyOf(table, options[KeyOf(table, v)]) == KeyOf(table, v);
  }

  // There are as many keys as different codes.
  lemma AsManyKeysAsCodes(table: seq<Alias>, values: seq<string>, options: map<string, string>)
    requires MapsKeys(table, values, options) && Lossless(table)
    ensures |options| == |Elements(values)|
  {
    forall v | v in values ensures v in options.Values {
      LookupReturnsCode(table, values, options, v);
      assert KeyOf(table, v) in options;
    }
    assert options.Values == Elements(values);
    KeysAreApart(table, options);
  }

  lemma {:induction false} KeysAreApart(table: seq<Alias>, options: map<string, string>)
    requires forall k :: k in options ==> KeyOf(table, options[k]) == k
    ensures |options.Values| == |options|
    decreases |options|
  {
    if options != map[] {
      var k :| k in options;
      var fewer := options - {k};
      KeysAreApart(table, fewer);
      assert options[k] !in fewer.Values;
      assert options.Values == fewer.Values + {options[k]} by {
        forall v | v in options.Values ensures v in fewer.Values + {options[k]} {
          var m :| m in options && options[m] == v;
          assert m != k ==> m in fewer && fewer[m] == v;
        }
        forall v | v in fewer.Values ensures v in options.Values {
          var m :| m in fewer && fewer[m] == v;
          assert m in options && options[m] == v;
        }
      }
      assert options.Keys == fewer.Keys + {k} && |options.Keys| == |options| && |fewer.Keys| == |fewer|;
    }
  }

  // The key of a code stays the same when other codes are advertised or withdrawn, and still leads to it.
  lemma KeysAreStable(table: seq<Alias>, before: seq<string>, earlier: map<string, string>, after: seq<string>,
                      later: map<string, string>, k: string)
    requires Lossless(table) && MapsKeys(table, before, earlier) && MapsKeys(table, after, later)
    requires k in earlier && earlier[k] in after
    ensures k in later && later[k] == earlier[k]
  {
    LookupReturnsCode(table, after, later, earlier[k]);
  }

  // ----- The plain translation -----

  /** The last wire code with this translation: later entries of the inverted table overwrite earlier ones. */
  function ToPointt(table: seq<Alias>, text: string): string {
    if table == [] then text
    else if table[|table| - 1].translated == text then table[|table| - 1].raw
    else ToPointt(table[..|table| - 1], text)
  }

  ghost predicate LastWith(table: seq<Alias>, raw: string, text: string) {
    exists i :: LastAt(table, i, raw, text)
  }

  ghost predicate LastAt(table: seq<Alias>, i: int, raw: string, text: string) {
    0 <= i < |table| && table[i] == Alias(raw, text) && forall j :: i < j < |table| ==> table[j].translated != text
  }

  lemma LastIsUnique(table: seq<Alias>, text: string, a: string, b: string)
    requires LastWith(table, a, text) && LastWith(table, b, text)
    ensures a == b
  {
    var i :| LastAt(table, i, a, text);
    var j :| LastAt(table, j, b, text);
  }

  lemma {:induction false} ToPointtIsLast(table: seq<Alias>, text: string)
    requires IsTranslation(table, text)
    ensures LastWith(table, ToPointt(table, text), text)
  {
    var n := |table| - 1;
    if table[n].translated == text {
      assert LastAt(table, n, ToPointt(table, text), text);
    } else {
      var i :| 0 <= i < |table| && table[i].translated == text;
      assert table[..n][i].translated == text;
      ToPointtIsLast(table[..n], text);
      var k :| LastAt(table[..n], k, ToPointt(table, text), text);
      assert LastAt(table, k, ToPointt(table, text), text);
    }
  }

  lemma {:induction false} NoTranslationIsKept(table: seq<Alias>, text: string)
    requires !IsTranslation(table, text)
    ensures ToPointt(table, text) == text
  {
    if table != [] {
      var n := |table| - 1;
      assert table[n].translated != text;
      forall i | 0 <= i < n ensures table[..n][i].translated != text {
        assert table[i].translated != text;
      }
      NoTranslationIsKept(table[..n], text);
    }
  }

  // The plain translation restores a code exactly when it is the last one with its translation, or an unknown
  // code that is no translation.
  lemma RoundTripExactly(table: seq<Alias>, raw: string)
    ensures ToPointt(table, ToHa(table, raw)) == raw <==>
              if HasAlias(table, raw) then LastWith(table, raw, ToHa(table, raw)) else !IsTranslation(table, raw)
  {
    TranslatedIsListed(table, raw);
    var text := ToHa(table, raw);
    if IsTranslation(table, text) {
      ToPointtIsLast(table, text);
      if LastWith(table, raw, text) {
        LastIsUnique(table, text, raw, ToPointt(table, text));
      }
    } else {
      NoTranslationIsKept(table, raw);
    }
  }

  const SYSTEM_TYPES: seq<Alias> := [Alias("boiler", "boiler_single"), Alias("eHybrid", "hybrid"), Alias("hybman", "hybrid"),
                                     Alias("hybridBoiler", "hybrid")]

  // One of the reviewed tables loses a spelling: three system types share one translation.
  lemma SystemTypeIsNotRestored()
    ensures ToPointt(SYSTEM_TYPES, ToHa(SYSTEM_TYPES, "eHybrid")) == "hybridBoiler"
  {
    assert SYSTEM_TYPES[0].raw != "eHybrid" && SYSTEM_TYPES[1..][0].raw == "eHybrid";
  }
}
