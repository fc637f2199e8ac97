/** The download-form field settings (`Settings` class): which of the three
    contact fields the form shows and which of them it requires.  The
    setting is stored as a PHP array keyed by field, each value an array with
    an `enabled` and a `required` flag. */
module Settings {
  import opened Wrappers
  import opened PhpValue
  import Text

  /** The three fields, in the order `$default_settings` lists them. */
  const FieldKeys: seq<string> := ["name_field", "email_field", "phone_field"]

  /** A field's two flags as the plugin writes them. */
  function ConfigEntries(enabled: bool, required: bool): PhpArray {
    [("enabled", Bool(enabled)), ("required", Bool(required))]
  }

  /** `$default_settings[$k]` for one of the three fields. */
  function DefaultEntries(k: string): PhpArray
    requires k in FieldKeys
  {
    if k == "email_field" then ConfigEntries(true, false) else ConfigEntries(true, true)
  }

  /** `$default_settings`: name and phone shown and required, email shown
      and optional. */
  const Defaults: PhpArray := [
    ("name_field", Arr(ConfigEntries(true, true))),
    ("email_field", Arr(ConfigEntries(true, false))),
    ("phone_field", Arr(ConfigEntries(true, true)))
  ]

  /** The configuration `get_field_config` falls back to for a key that is
      none of the three fields. */
  const Disabled: PhpArray := ConfigEntries(false, false)

  /** `! empty( $config['enabled'] )`. */
  predicate EnabledFlag(config: Value) {
    !Empty(Index(config, "enabled"))
  }

  /** `! empty( $config['required'] )`. */
  predicate RequiredFlag(config: Value) {
    !Empty(Index(config, "required"))
  }

  // ---------------------------------------------------------------------
  // sanitize_settings
  // ---------------------------------------------------------------------

  /** One field of `sanitize_settings`: `required` is kept only together
      with `enabled`. */
  function SanitizeField(raw: Value): PhpArray {
    ConfigEntries(EnabledFlag(raw), RequiredFlag(raw) && EnabledFlag(raw))
  }

  /** `sanitize_settings`: exactly the three fields, in order, each with
      both flags; a null or non-array input counts as an empty array. */
  function SanitizeSettings(input: Value): (r: PhpArray)
    ensures |r| == |FieldKeys|
    ensures forall i :: 0 <= i < |r| ==> r[i].0 == FieldKeys[i]
  {
    var raw := if input.Arr? then input.entries else [];
    seq(|FieldKeys|, i requires 0 <= i < |FieldKeys| =>
      (FieldKeys[i], Arr(SanitizeField(Lookup(raw, FieldKeys[i])))))
  }

  /** In sanitized settings every required field is enabled. */
  lemma SanitizedRequiredImpliesEnabled(input: Value)
    ensures forall i :: 0 <= i < |SanitizeSettings(input)| ==>
      (RequiredFlag(SanitizeSettings(input)[i].1) ==> EnabledFlag(SanitizeSettings(input)[i].1))
  {
    var r := SanitizeSettings(input);
    var raw := if input.Arr? then input.entries else [];
    forall i | 0 <= i < |r|
      ensures RequiredFlag(r[i].1) ==> EnabledFlag(r[i].1)
    {
      var field := Lookup(raw, FieldKeys[i]);
      assert r[i].1 == Arr(SanitizeField(field));
      ConfigFlags(EnabledFlag(field), RequiredFlag(field) && EnabledFlag(field));
    }
  }

  /** Whatever keys the input has, the output has exactly the three field
      keys. */
  lemma SanitizedKeys(input: Value, k: string)
    ensures HasKey(SanitizeSettings(input), k) <==> k in FieldKeys
  {
    var r := SanitizeSettings(input);
    if k in FieldKeys {
      var i :| 0 <= i < |FieldKeys| && FieldKeys[i] == k;
      assert r[i].0 == k;
    }
  }

  /** A null or non-array input (no box ticked) disables every field. */
  lemma SanitizeNonArray(input: Value)
    requires !input.Arr?
    ensures forall i :: 0 <= i < |FieldKeys| ==>
      SanitizeSettings(input)[i].1 == Arr(ConfigEntries(false, false))
  {
  }

  // ---------------------------------------------------------------------
  // get_settings and the queries built on it
  // ---------------------------------------------------------------------

  /** `wp_parse_args( $stored, $defaults )` for a field's stored value.  A
      value that is not an array would be parsed as a query string by
      WordPress; the model reads it as an empty array. */
  function ParseArgs(stored: Value, defaults: PhpArray): PhpArray {
    Merge(defaults, if stored.Arr? then stored.entries else [])
  }

  /** One round of the loop in `get_settings`. */
  function FillField(settings: PhpArray, k: string): PhpArray
    requires k in FieldKeys
  {
    if !IsSet(settings, k) then Put(settings, k, Arr(DefaultEntries(k)))
    else Put(settings, k, Arr(ParseArgs(Lookup(settings, k), DefaultEntries(k))))
  }

  /** `get_settings`: the stored option (the defaults when there is none),
      with each of the three fields filled in from its defaults. */
  function GetSettings(option: Option<PhpArray>): (r: PhpArray)
    ensures forall i :: 0 <= i < |FieldKeys| ==> Lookup(r, FieldKeys[i]).Arr?
  {
    var settings := option.GetOr(Defaults);
    FillField(FillField(FillField(settings, FieldKeys[0]), FieldKeys[1]), FieldKeys[2])
  }

  /** The stored option as PHP keeps it: distinct keys, and distinct keys in
      every field's array. */
  ghost predicate WellFormedOption(option: Option<PhpArray>) {
    option.Some? ==>
      && UniqueKeys(option.value)
      && forall i :: 0 <= i < |option.value| && option.value[i].1.Arr? ==>
           UniqueKeys(option.value[i].1.entries)
  }

  /** The three field keys are distinct. */
  lemma FieldKeysDistinct()
    ensures forall i, j :: 0 <= i < j < |FieldKeys| ==> FieldKeys[i] != FieldKeys[j]
  {
    assert FieldKeys[0][0] == 'n' && FieldKeys[1][0] == 'e' && FieldKeys[2][0] == 'p';
  }

  /** The flags of a configuration read back as they were written. */
  lemma ConfigFlags(enabled: bool, required: bool)
    ensures EnabledFlag(Arr(ConfigEntries(enabled, required))) == enabled
    ensures RequiredFlag(Arr(ConfigEntries(enabled, required))) == required
  {
    var e := ConfigEntries(enabled, required);
    assert |"enabled"| != |"required"|;
    assert Lookup(e, "required") == Lookup(e[1..], "required");
  }

  /** `wp_parse_args` of one configuration over another is the first one. */
  lemma ParseArgsOfConfig(enabled: bool, required: bool, d: PhpArray)
    requires |d| == 2 && d[0].0 == "enabled" && d[1].0 == "required"
    ensures ParseArgs(Arr(ConfigEntries(enabled, required)), d) == ConfigEntries(enabled, required)
  {
    var e := ConfigEntries(enabled, required);
    assert Put(d, e[0].0, e[0].1) == [e[0], d[1]];
    assert Put([e[0], d[1]], e[1].0, e[1].1) == e;
    assert Merge(d, e) == Merge(Put(d, e[0].0, e[0].1), e[1..]);
    assert Merge([e[0], d[1]], e[1..]) == Merge(Put([e[0], d[1]], e[1].0, e[1].1), e[2..]);
  }

  /** Settings in the shape `sanitize_settings` writes: the three fields in
      order, each holding exactly its two flags. */
  ghost predicate Normal(s: PhpArray) {
    && |s| == |FieldKeys|
    && forall i :: 0 <= i < |s| ==>
         s[i].0 == FieldKeys[i]
         && s[i].1 == Arr(ConfigEntries(EnabledFlag(s[i].1), RequiredFlag(s[i].1)))
  }

  lemma NormalUnique(s: PhpArray)
    requires Normal(s)
    ensures UniqueKeys(s)
  {
    FieldKeysDistinct();
  }

  /** Filling in a field of normal settings changes nothing. */
  lemma FillFieldOfNormal(s: PhpArray, i: nat)
    requires Normal(s) && i < |FieldKeys|
    ensures FillField(s, FieldKeys[i]) == s
  {
    NormalUnique(s);
    LookupAt(s, i);
    var v := s[i].1;
    ParseArgsOfConfig(EnabledFlag(v), RequiredFlag(v), DefaultEntries(FieldKeys[i]));
    PutSame(s, i);
  }

  /** `get_settings` returns normal settings as they are stored. */
  lemma GetSettingsOfNormal(s: PhpArray)
    requires Normal(s)
    ensures GetSettings(Some(s)) == s
  {
    FillFieldOfNormal(s, 0);
    FillFieldOfNormal(s, 1);
    FillFieldOfNormal(s, 2);
  }

  lemma SanitizedNormal(input: Value)
    ensures Normal(SanitizeSettings(input))
  {
    var r := SanitizeSettings(input);
    forall i | 0 <= i < |r|
      ensures r[i].1 == Arr(ConfigEntries(EnabledFlag(r[i].1), RequiredFlag(r[i].1)))
    {
      var f := SanitizeField(Lookup(if input.Arr? then input.entries else [], FieldKeys[i]));
      ConfigFlags(f[0].1.b, f[1].1.b);
    }
  }

  lemma DefaultsNormal()
    ensures Normal(Defaults)
  {
    ConfigFlags(true, true);
    ConfigFlags(true, false);
  }

  /** Reading back sanitized settings gives them unchanged: the defaults
      add nothing to a field that already has both flags. */
  lemma GetSettingsOfSanitized(input: Value)
    ensures GetSettings(Some(SanitizeSettings(input))) == SanitizeSettings(input)
  {
    SanitizedNormal(input);
    GetSettingsOfNormal(SanitizeSettings(input));
  }

  /** Sanitizing sanitized settings changes nothing. */
  lemma SanitizeIdempotent(input: Value)
    ensures SanitizeSettings(Arr(SanitizeSettings(input))) == SanitizeSettings(input)
  {
    var r := SanitizeSettings(input);
    var rr := SanitizeSettings(Arr(r));
    SanitizedNormal(input);
    NormalUnique(r);
    forall i | 0 <= i < |FieldKeys|
      ensures rr[i] == r[i]
    {
      LookupAt(r, i);
      var v := r[i].1;
      ConfigFlags(EnabledFlag(v), RequiredFlag(v));
    }
  }

  lemma FillFieldLookup(settings: PhpArray, k: string, j: string)
    requires k in FieldKeys
    ensures Lookup(FillField(settings, k), j)
         == if j != k then Lookup(settings, j)
            else if !IsSet(settings, k) then Arr(DefaultEntries(k))
            else Arr(ParseArgs(Lookup(settings, k), DefaultEntries(k)))
  {
  }

  /** What `get_settings` returns for each key: other keys as stored, a
      field that is unset as its default, a field that is set as its
      defaults overridden by what is stored. */
  lemma GetSettingsLookup(option: Option<PhpArray>, j: string)
    ensures var settings := option.GetOr(Defaults);
      Lookup(GetSettings(option), j)
        == if j !in FieldKeys then Lookup(settings, j)
           else if !IsSet(settings, j) then Arr(DefaultEntries(j))
           else Arr(ParseArgs(Lookup(settings, j), DefaultEntries(j)))
  {
    var s0 := option.GetOr(Defaults);
    var s1 := FillField(s0, FieldKeys[0]);
    var s2 := FillField(s1, FieldKeys[1]);
    FillFieldLookup(s2, FieldKeys[2], j);
    FieldKeysDistinct();
    if j != FieldKeys[2] {
      FillTwiceLookup(s0, j);
    } else {
      FillTwiceOther(s0, j);
    }
  }

  /** The first two rounds of `get_settings` on a key they fill. */
  lemma FillTwiceLookup(s0: PhpArray, j: string)
    requires j != FieldKeys[2]
    ensures var s2 := FillField(FillField(s0, FieldKeys[0]), FieldKeys[1]);
      Lookup(s2, j)
        == if j !in FieldKeys then Lookup(s0, j)
           else if !IsSet(s0, j) then Arr(DefaultEntries(j))
           else Arr(ParseArgs(Lookup(s0, j), DefaultEntries(j)))
  {
    var s1 := FillField(s0, FieldKeys[0]);
    FieldKeysDistinct();
    FillFieldLookup(s1, FieldKeys[1], j);
    if j == FieldKeys[1] {
      FillFieldLookup(s0, FieldKeys[0], FieldKeys[1]);
    } else {
      FillFieldLookup(s0, FieldKeys[0], j);
    }
  }

  /** The first two rounds of `get_settings` leave the third field alone. */
  lemma FillTwiceOther(s0: PhpArray, j: string)
    requires j == FieldKeys[2]
    ensures Lookup(FillField(FillField(s0, FieldKeys[0]), FieldKeys[1]), j) == Lookup(s0, j)
  {
    var s1 := FillField(s0, FieldKeys[0]);
    FieldKeysDistinct();
    FillFieldLookup(s1, FieldKeys[1], j);
    FillFieldLookup(s0, FieldKeys[0], j);
  }

  /** Every field of `get_settings`' result is an array carrying both
      flags; a stored flag wins over the default. */
  lemma GetSettingsFieldFlags(option: Option<PhpArray>, k: string, flag: string)
    requires k in FieldKeys && (flag == "enabled" || flag == "required")
    requires WellFormedOption(option)
    ensures Lookup(GetSettings(option), k).Arr?
    ensures HasKey(Lookup(GetSettings(option), k).entries, flag)
    ensures var stored := Lookup(option.GetOr(Defaults), k);
      stored.Arr? && HasKey(stored.entries, flag) ==>
        Lookup(Lookup(GetSettings(option), k).entries, flag) == Lookup(stored.entries, flag)
  {
    GetSettingsLookup(option, k);
    var settings := option.GetOr(Defaults);
    var stored := Lookup(settings, k);
    var d := DefaultEntries(k);
    DefaultEntriesKeys(k, flag);
    if IsSet(settings, k) {
      var entries := if stored.Arr? then stored.entries else [];
      MergeShape(d, entries);
      if stored.Arr? {
        StoredFieldUnique(option, k);
        MergeLookup(d, stored.entries, flag);
      }
    }
  }

  /** A field's defaults carry both flags, each once. */
  lemma DefaultEntriesKeys(k: string, flag: string)
    requires k in FieldKeys && (flag == "enabled" || flag == "required")
    ensures UniqueKeys(DefaultEntries(k)) && HasKey(DefaultEntries(k), flag)
  {
    var d := DefaultEntries(k);
    assert d[0].0 == "enabled" && d[1].0 == "required";
    assert |d[0].0| != |d[1].0|;
  }

  /** A field stored as an array has distinct keys. */
  lemma StoredFieldUnique(option: Option<PhpArray>, k: string)
    requires WellFormedOption(option)
    ensures var stored := Lookup(option.GetOr(Defaults), k);
      stored.Arr? ==> UniqueKeys(stored.entries)
  {
    var settings := option.GetOr(Defaults);
    var stored := Lookup(settings, k);
    if stored.Arr? {
      var i := LookupWitness(settings, k);
      if option.None? {
        DefaultsNormal();
        assert stored == Arr(ConfigEntries(EnabledFlag(stored), RequiredFlag(stored)));
      }
    }
  }

  /** `get_field_config`: the key's entry of `get_settings`, else its entry
      of the defaults, else a disabled field.  Since `get_settings` fills in
      every field, a field never reaches the defaults; any other key reads
      as the stored option has it, or disabled when it is not set there. */
  function GetFieldConfig(option: Option<PhpArray>, k: string): (config: Value)
    ensures k in FieldKeys ==> config == Lookup(GetSettings(option), k) && config.Arr?
    ensures k !in FieldKeys && IsSet(option.GetOr(Defaults), k) ==> config == Lookup(option.GetOr(Defaults), k)
    ensures k !in FieldKeys && !IsSet(option.GetOr(Defaults), k) ==> config == Arr(Disabled)
  {
    GetSettingsLookup(option, k);
    DefaultsOnlyFields(k);
    var settings := GetSettings(option);
    if IsSet(settings, k) then Lookup(settings, k)
    else if IsSet(Defaults, k) then Lookup(Defaults, k)
    else Arr(Disabled)
  }

  /** The defaults set only the three fields. */
  lemma DefaultsOnlyFields(k: string)
    ensures IsSet(Defaults, k) ==> k in FieldKeys
  {
    if k !in FieldKeys {
      assert Defaults[0].0 != k && Defaults[1].0 != k && Defaults[2].0 != k;
      assert Defaults[1..][1..][1..] == [];
    }
  }

  /** `is_field_enabled`. */
  predicate IsFieldEnabled(option: Option<PhpArray>, k: string)
    ensures IsFieldEnabled(option, k) ==> k in FieldKeys || IsSet(option.GetOr(Defaults), k)
  {
    GetSettingsLookup(option, k);
    ConfigFlags(false, false);
    EnabledFlag(GetFieldConfig(option, k))
  }

  /** `is_field_required`: the required flag counts only on an enabled
      field. */
  predicate IsFieldRequired(option: Option<PhpArray>, k: string)
    ensures IsFieldRequired(option, k) ==> IsFieldEnabled(option, k)
  {
    var config := GetFieldConfig(option, k);
    RequiredFlag(config) && EnabledFlag(config)
  }

  /** A required field is always an enabled one. */
  lemma RequiredImpliesEnabled(option: Option<PhpArray>, k: string)
    ensures IsFieldRequired(option, k) ==> IsFieldEnabled(option, k)
  {
  }

  /** The entry tests of `get_enabled_fields` and `get_required_fields`. */
  predicate EntryEnabled(e: (string, Value)) {
    EnabledFlag(e.1)
  }

  predicate EntryRequired(e: (string, Value)) {
    EnabledFlag(e.1) && RequiredFlag(e.1)
  }

  function KeysOf(a: PhpArray): (ks: seq<string>)
    ensures |ks| == |a|
    ensures forall i :: 0 <= i < |a| ==> ks[i] == a[i].0
  {
    seq(|a|, i requires 0 <= i < |a| => a[i].0)
  }

  /** `get_enabled_fields`: the keys of the settings whose field is enabled,
      in the settings' order. */
  function GetEnabledFields(option: Option<PhpArray>): (fields: seq<string>)
    ensures |fields| <= |GetSettings(option)|
  {
    KeysOf(Text.Filter(GetSettings(option), EntryEnabled))
  }

  /** `get_required_fields`: the keys whose field is enabled and required,
      in the settings' order. */
  function GetRequiredFields(option: Option<PhpArray>): (fields: seq<string>)
    ensures |fields| <= |GetSettings(option)|
  {
    KeysOf(Text.Filter(GetSettings(option), EntryRequired))
  }

  /** The required fields are the enabled fields with the optional ones
      left out: a subsequence, in the same order. */
  lemma RequiredFieldsWithinEnabled(option: Option<PhpArray>)
    ensures GetRequiredFields(option)
         == KeysOf(Text.Filter(Text.Filter(GetSettings(option), EntryEnabled), EntryRequired))
  {
    Text.FilterNarrow(GetSettings(option), EntryEnabled, EntryRequired);
  }

  /** Saving the settings form and reading a field back gives the boxes as
      ticked: a field is shown when its `enabled` box was ticked and
      required when both of its boxes were. */
  lemma SavedSettingsReadBack(input: Value, i: nat)
    requires i < |FieldKeys|
    ensures var k := FieldKeys[i];
      IsFieldEnabled(Some(SanitizeSettings(input)), k) == EnabledFlag(Index(input, k))
    ensures var k := FieldKeys[i];
      IsFieldRequired(Some(SanitizeSettings(input)), k)
        == (EnabledFlag(Index(input, k)) && RequiredFlag(Index(input, k)))
  {
    var r := SanitizeSettings(input);
    var k := FieldKeys[i];
    SanitizedNormal(input);
    FieldConfigOfNormal(r, i);
    var raw := Lookup(if input.Arr? then input.entries else [], k);
    assert raw == Index(input, k);
    assert r[i].1 == Arr(SanitizeField(raw));
    ConfigFlags(EnabledFlag(raw), RequiredFlag(raw) && EnabledFlag(raw));
  }

  /** With normal settings stored, a field's configuration is its stored
      entry. */
  lemma FieldConfigOfNormal(s: PhpArray, i: nat)
    requires Normal(s) && i < |FieldKeys|
    ensures GetFieldConfig(Some(s), FieldKeys[i]) == s[i].1
  {
    NormalUnique(s);
    GetSettingsOfNormal(s);
    LookupAt(s, i);
  }

  /** A key that is none of the three fields and is not stored is reported
      disabled and optional. */
  lemma UnknownFieldDisabled(option: Option<PhpArray>, k: string)
    requires k !in FieldKeys && !IsSet(option.GetOr(Defaults), k)
    ensures !IsFieldEnabled(option, k) && !IsFieldRequired(option, k)
  {
    GetSettingsLookup(option, k);
    ConfigFlags(false, false);
  }

  lemma FillFieldUnique(s: PhpArray, k: string)
    requires k in FieldKeys && UniqueKeys(s)
    ensures UniqueKeys(FillField(s, k))
  {
    if !IsSet(s, k) {
      PutUnique(s, k, Arr(DefaultEntries(k)));
    } else {
      PutUnique(s, k, Arr(ParseArgs(Lookup(s, k), DefaultEntries(k))));
    }
  }

  /** `get_settings` keeps the keys of a well-formed option distinct. */
  lemma GetSettingsUnique(option: Option<PhpArray>)
    requires WellFormedOption(option)
    ensures UniqueKeys(GetSettings(option))
  {
    var s0 := option.GetOr(Defaults);
    if option.None? {
      DefaultsNormal();
      NormalUnique(Defaults);
    }
    FillFieldUnique(s0, FieldKeys[0]);
    FillFieldUnique(FillField(s0, FieldKeys[0]), FieldKeys[1]);
    FillFieldUnique(FillField(FillField(s0, FieldKeys[0]), FieldKeys[1]), FieldKeys[2]);
  }

  /** A key is listed after filtering exactly when one of its entries passes. */
  lemma FilteredKeys(a: PhpArray, p: ((string, Value)) -> bool, k: string)
    requires UniqueKeys(a) && HasKey(a, k)
    ensures k in KeysOf(Text.Filter(a, p)) <==> p((k, Lookup(a, k)))
  {
    var b := Text.Filter(a, p);
    var i := LookupWitness(a, k);
    assert a[i] == (k, Lookup(a, k));
    if k in KeysOf(b) {
      var m :| 0 <= m < |b| && KeysOf(b)[m] == k;
      Text.FilterSubset(a, p, b[m]);
      var n :| 0 <= n < |a| && a[n] == b[m];
      LookupAt(a, n);
    }
    if p(a[i]) {
      Text.FilterKeeps(a, p, i);
      var m :| 0 <= m < |b| && b[m] == a[i];
      assert KeysOf(b)[m] == k;
    }
  }

  /** The two ways the plugin asks about a field agree: a field is in
      `get_enabled_fields` exactly when `is_field_enabled` holds for it, and
      in `get_required_fields` exactly when `is_field_required` does. */
  lemma FieldListsAgreeWithQueries(option: Option<PhpArray>, k: string)
    requires k in FieldKeys && WellFormedOption(option)
    ensures k in GetEnabledFields(option) <==> IsFieldEnabled(option, k)
    ensures k in GetRequiredFields(option) <==> IsFieldRequired(option, k)
  {
    var gs := GetSettings(option);
    GetSettingsFieldFlags(option, k, "enabled");
    GetSettingsUnique(option);
    assert HasKey(gs, k);
    FilteredKeys(gs, EntryEnabled, k);
    FilteredKeys(gs, EntryRequired, k);
  }

  /** With no option stored, the defaults apply: all three fields shown,
      name and phone required. */
  lemma DefaultsAsDocumented()
    ensures IsFieldEnabled(None, "name_field") && IsFieldRequired(None, "name_field")
    ensures IsFieldEnabled(None, "email_field") && !IsFieldRequired(None, "email_field")
    ensures IsFieldEnabled(None, "phone_field") && IsFieldRequired(None, "phone_field")
  {
    DefaultsNormal();
    NormalUnique(Defaults);
    GetSettingsOfNormal(Defaults);
    LookupAt(Defaults, 0);
    LookupAt(Defaults, 1);
    LookupAt(Defaults, 2);
    ConfigFlags(true, true);
    ConfigFlags(true, false);
  }
}
