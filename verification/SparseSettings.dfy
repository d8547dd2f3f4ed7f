/**
 * The sparse form of the settings file: values equal to their default are left out, field by
 * field, except under a few keys whose values are kept or dropped as a whole.
 */
module SparseSettings {
  import opened JsValues

  const ATOMIC_KEYS: set<string> := {
    "backgroundActivity", "automaticGitFetchInterval", "providerHealthRefreshInterval",
    "sourceControlWriterModelSelection", "textGenerationModelSelection", "pullRequestMergeMethod"}

  /** `Undefined` is the answer "nothing to write". */
  function Strip(current: Value, defaults: Value): Value
    decreases current, 2
  {
    if current.Record? && defaults.Record? then
      var next := StripFields(current, defaults);
      if next == map[] then Undefined else Record(next)
    else if current == defaults then Undefined
    else current
  }

  function StripFields(current: Value, defaults: Value): map<string, Value>
    requires current.Record? && defaults.Record?
    decreases current, 1
  {
    map k | k in current.fields && StripField(current, defaults, k) != Undefined :: StripField(current, defaults, k)
  }

  /** Storing a value under the prototype's name stores nothing. */
  function StripField(current: Value, defaults: Value, k: string): Value
    requires current.Record? && defaults.Record? && k in current.fields
    decreases current, 0
  {
    var value, default := current.fields[k], Property(defaults.fields, k);
    if k == PROTO then Undefined
    else if k in ATOMIC_KEYS then if value == default then Undefined else value
    else Strip(value, default)
  }

  /** Reading the sparse form back: what is absent takes its default. */
  function Fill(sparse: Value, defaults: Value): Value
    decreases sparse
  {
    if sparse.Undefined? then defaults
    else if sparse.Record? && defaults.Record? then
      Record(map k | k in sparse.fields.Keys + defaults.fields.Keys :: FillField(sparse, defaults, k))
    else sparse
  }

  function FillField(sparse: Value, defaults: Value, k: string): Value
    requires sparse.Record? && defaults.Record?
    decreases sparse, 0
  {
    var default := Property(defaults.fields, k);
    if k !in sparse.fields then default
    else if k in ATOMIC_KEYS then sparse.fields[k]
    else Fill(sparse.fields[k], default)
  }

  /**
   * The settings mention every key of the matching default record, and hold no undefined
   * value of their own nor, beyond the defaults, the prototype's name as a key. A record from
   * which a default key was removed does not.
   */
  predicate Covers(current: Value, defaults: Value)
    decreases current
  {
    && (current.Undefined? ==> defaults.Undefined?)
    && (current.Record? && defaults.Record? ==>
          && defaults.fields.Keys <= current.fields.Keys
          && forall k :: k in current.fields ==> CoversField(current, defaults, k))
  }

  predicate CoversField(current: Value, defaults: Value, k: string)
    requires current.Record? && defaults.Record? && k in current.fields
    decreases current, 0
  {
    var value, default := current.fields[k], Property(defaults.fields, k);
    if k == PROTO then k in defaults.fields && value == default
    else if k in ATOMIC_KEYS then value.Undefined? ==> default.Undefined? && k in defaults.fields
    else Covers(value, default) && (value.Undefined? ==> k in defaults.fields)
  }

  /** Stripping answers "nothing" exactly when the settings equal their defaults. */
  lemma {:induction false} StripsToNothingIffDefault(current: Value, defaults: Value)
    requires Covers(current, defaults)
    ensures Strip(current, defaults) == Undefined <==> current == defaults
    decreases current
  {
    if current.Record? && defaults.Record? {
      forall k | k in current.fields
        ensures StripField(current, defaults, k) == Undefined <==> current.fields[k] == Property(defaults.fields, k)
      {
        assert CoversField(current, defaults, k);
        if k != PROTO && k !in ATOMIC_KEYS {
          StripsToNothingIffDefault(current.fields[k], Property(defaults.fields, k));
        }
      }
      if forall k :: k in current.fields ==> StripField(current, defaults, k) == Undefined {
        forall k | k in current.fields ensures k in defaults.fields {
          assert CoversField(current, defaults, k);
        }
        assert current.fields == defaults.fields;
      } else {
        var k :| k in current.fields && StripField(current, defaults, k) != Undefined;
        assert k in StripFields(current, defaults);
      }
    }
  }

  lemma FieldRoundTrip(current: Value, defaults: Value, k: string)
    requires current.Record? && defaults.Record? && k in current.fields
    requires CoversField(current, defaults, k)
    requires k != PROTO && k !in ATOMIC_KEYS ==>
      Fill(Strip(current.fields[k], Property(defaults.fields, k)), Property(defaults.fields, k)) == current.fields[k]
    ensures FillField(Record(StripFields(current, defaults)), defaults, k) == current.fields[k]
  {
    var sparse := Record(StripFields(current, defaults));
    if k in sparse.fields {
      assert sparse.fields[k] == StripField(current, defaults, k);
    } else {
      assert StripField(current, defaults, k) == Undefined;
    }
  }

  /** The sparse form loses nothing. */
  lemma {:induction false} SparseRoundTrip(current: Value, defaults: Value)
    requires Covers(current, defaults)
    ensures Fill(Strip(current, defaults), defaults) == current
    decreases current
  {
    StripsToNothingIffDefault(current, defaults);
    if current.Record? && defaults.Record? && current != defaults {
      var sparse := Strip(current, defaults);
      assert sparse == Record(StripFields(current, defaults));
      forall k | k in current.fields ensures FillField(sparse, defaults, k) == current.fields[k] {
        assert CoversField(current, defaults, k);
        if k != PROTO && k !in ATOMIC_KEYS {
          SparseRoundTrip(current.fields[k], Property(defaults.fields, k));
        }
        FieldRoundTrip(current, defaults, k);
      }
      assert Fill(sparse, defaults).fields == current.fields;
    }
  }

  /** And only covering settings survive: the condition is exact. */
  lemma {:induction false} RoundTripNeedsCover(current: Value, defaults: Value)
    requires Fill(Strip(current, defaults), defaults) == current
    ensures Covers(current, defaults)
    decreases current
  {
    if current.Record? && defaults.Record? {
      var sparse := Strip(current, defaults);
      var filled := Fill(sparse, defaults);
      assert defaults.fields.Keys <= filled.fields.Keys;
      forall k | k in current.fields ensures CoversField(current, defaults, k) {
        var value, default := current.fields[k], Property(defaults.fields, k);
        if sparse.Undefined? {
          assert current == defaults;
          assert k !in StripFields(current, defaults);
          SelfCovers(value);
        } else {
          assert FillField(sparse, defaults, k) == value;
          if k in sparse.fields {
            assert sparse.fields[k] == StripField(current, defaults, k);
            if k !in ATOMIC_KEYS {
              RoundTripNeedsCover(value, default);
            }
          } else {
            assert StripField(current, defaults, k) == Undefined;
            assert k in defaults.fields;
            SelfCovers(value);
          }
        }
      }
    }
  }

  lemma {:induction false} SelfCovers(v: Value)
    ensures Covers(v, v)
    decreases v
  {
    if v.Record? {
      forall k | k in v.fields ensures CoversField(v, v, k) {
        SelfCovers(v.fields[k]);
      }
    }
  }
}
