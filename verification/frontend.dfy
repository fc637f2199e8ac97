/** The server side of the plugin's front end (`Frontend` class): the
    adjustments it makes to the archive's main query, the contact fields of
    the download form and the validation rules it hands to the browser
    script.  The form is modelled as the list of fields it renders rather
    than as markup. */
module Frontend {
  import opened Wrappers
  import opened PhpValue
  import Settings

  // ---------------------------------------------------------------------
  // The contact fields
  // ---------------------------------------------------------------------

  /** One contact field of the download form: its settings key, the
      `data-field-type` the script dispatches on, the POST name, the label,
      the HTML input type and the `type` of its validation rule. */
  datatype FieldSpec = FieldSpec(
    key: string,
    fieldType: string,
    name: string,
    caption: string,
    inputType: string,
    ruleType: string)

  const NameSpec: FieldSpec := FieldSpec("name_field", "name", "user_name", "Full Name", "text", "text")
  const EmailSpec: FieldSpec := FieldSpec("email_field", "email", "user_email", "Email Address", "email", "email")
  const PhoneSpec: FieldSpec := FieldSpec("phone_field", "phone", "user_mobile", "Mobile Number", "tel", "tel")

  /** The three fields in the order both the form and the rules list them. */
  const Specs: seq<FieldSpec> := [NameSpec, EmailSpec, PhoneSpec]

  // ---------------------------------------------------------------------
  // Validation rules
  // ---------------------------------------------------------------------

  /** One entry of `get_form_validation_rules`. */
  datatype Rule = Rule(enabled: bool, required: bool, ruleType: string)

  /** The rules object, keyed by POST name, in insertion order. */
  type Rules = seq<(string, Rule)>

  /** The rule a field contributes: present when the field is enabled. */
  function RuleEntry(spec: FieldSpec, enabled: seq<string>, required: seq<string>): (r: Rules)
    ensures |r| <= 1
  {
    if spec.key in enabled then [(spec.name, Rule(true, spec.key in required, spec.ruleType))] else []
  }

  /** `get_form_validation_rules`. */
  function GetFormValidationRules(option: Option<PhpArray>): (rules: Rules)
    ensures |rules| <= |Specs|
  {
    var enabled := Settings.GetEnabledFields(option);
    var required := Settings.GetRequiredFields(option);
    RuleEntry(NameSpec, enabled, required)
      + RuleEntry(EmailSpec, enabled, required)
      + RuleEntry(PhoneSpec, enabled, required)
  }

  /** `validationRules[fieldName]` in the script: the rule stored under a
      name, if any. */
  function RuleFor(rules: Rules, name: string): (r: Option<Rule>)
    ensures r.Some? ==> (name, r.value) in rules
    ensures r.None? ==> forall j :: 0 <= j < |rules| ==> rules[j].0 != name
  {
    if |rules| == 0 then None
    else if rules[0].0 == name then Some(rules[0].1)
    else RuleFor(rules[1..], name)
  }

  /** Looking a name up in two rule lists joined is looking it up in the
      first and then in the second. */
  lemma {:induction false} RuleForAppend(a: Rules, b: Rules, name: string)
    ensures RuleFor(a + b, name) == if RuleFor(a, name).Some? then RuleFor(a, name) else RuleFor(b, name)
  {
    if |a| == 0 {
      assert a + b == b;
    } else {
      assert (a + b)[1..] == a[1..] + b;
      RuleForAppend(a[1..], b, name);
    }
  }

  /** A field's own entry answers a lookup of its name, and the entries of
      the other fields do not. */
  lemma RuleEntryFor(spec: FieldSpec, enabled: seq<string>, required: seq<string>, name: string)
    ensures RuleFor(RuleEntry(spec, enabled, required), name)
         == if spec.key in enabled && name == spec.name then Some(Rule(true, spec.key in required, spec.ruleType))
            else None
  {
  }

  /** The rule the browser finds under a field's POST name follows the
      field's settings: there is one exactly when the field is enabled, it
      is marked required exactly when the field is required, and its type
      is the field's. */
  lemma RulesFollowSettings(option: Option<PhpArray>, i: nat)
    requires i < |Specs| && Settings.WellFormedOption(option)
    ensures var spec := Specs[i];
      RuleFor(GetFormValidationRules(option), spec.name)
        == if Settings.IsFieldEnabled(option, spec.key)
           then Some(Rule(true, Settings.IsFieldRequired(option, spec.key), spec.ruleType))
           else None
  {
    var spec := Specs[i];
    var enabled := Settings.GetEnabledFields(option);
    var required := Settings.GetRequiredFields(option);
    assert spec.key == Settings.FieldKeys[i];
    Settings.FieldListsAgreeWithQueries(option, spec.key);
    var r0 := RuleEntry(NameSpec, enabled, required);
    var r1 := RuleEntry(EmailSpec, enabled, required);
    var r2 := RuleEntry(PhoneSpec, enabled, required);
    RuleForAppend(r0 + r1, r2, spec.name);
    RuleForAppend(r0, r1, spec.name);
    RuleEntryFor(NameSpec, enabled, required, spec.name);
    RuleEntryFor(EmailSpec, enabled, required, spec.name);
    RuleEntryFor(PhoneSpec, enabled, required, spec.name);
  }

  /** A name that is none of the three fields' has no rule. */
  lemma NoRuleForOtherNames(option: Option<PhpArray>, name: string)
    requires forall i :: 0 <= i < |Specs| ==> Specs[i].name != name
    ensures RuleFor(GetFormValidationRules(option), name) == None
  {
    var enabled := Settings.GetEnabledFields(option);
    var required := Settings.GetRequiredFields(option);
    var r0 := RuleEntry(NameSpec, enabled, required);
    var r1 := RuleEntry(EmailSpec, enabled, required);
    var r2 := RuleEntry(PhoneSpec, enabled, required);
    assert NameSpec.name != name && EmailSpec.name != name && PhoneSpec.name != name by {
      assert Specs[0].name != name && Specs[1].name != name && Specs[2].name != name;
    }
    RuleForAppend(r0 + r1, r2, name);
    RuleForAppend(r0, r1, name);
    RuleEntryFor(NameSpec, enabled, required, name);
    RuleEntryFor(EmailSpec, enabled, required, name);
    RuleEntryFor(PhoneSpec, enabled, required, name);
  }

  // ---------------------------------------------------------------------
  // The rendered form
  // ---------------------------------------------------------------------

  /** What `render_form_field` emits for a field: the `data-field-type`,
      the input's id and name, the label text, the input type and whether
      the input carries the `required` attribute. */
  datatype RenderedField = RenderedField(
    fieldType: string,
    id: string,
    name: string,
    caption: string,
    inputType: string,
    required: bool)

  /** The marker appended to a required field's label. */
  const RequiredMarker: string := " *"

  /** `render_form_field`. */
  function RenderFormField(spec: FieldSpec, isRequired: bool): (f: RenderedField)
    ensures f.name == spec.name && f.fieldType == spec.fieldType && f.inputType == spec.inputType
    ensures f.required == isRequired
  {
    RenderedField(spec.fieldType, "wprl_" + spec.name, spec.name,
                  spec.caption + (if isRequired then RequiredMarker else ""), spec.inputType, isRequired)
  }

  /** The field a spec contributes to the form: present when enabled. */
  function FieldEntry(spec: FieldSpec, enabled: seq<string>, required: seq<string>): (r: seq<RenderedField>)
    ensures |r| <= 1
  {
    if spec.key in enabled then [RenderFormField(spec, spec.key in required)] else []
  }

  /** `get_download_form_fields`: the enabled fields, name, e-mail, phone. */
  function GetDownloadFormFields(option: Option<PhpArray>): (fields: seq<RenderedField>)
    ensures |fields| <= |Specs|
  {
    var enabled := Settings.GetEnabledFields(option);
    var required := Settings.GetRequiredFields(option);
    FieldEntry(NameSpec, enabled, required)
      + FieldEntry(EmailSpec, enabled, required)
      + FieldEntry(PhoneSpec, enabled, required)
  }

  /** The form's input with a given name (the last one, as a later
      `formData[name]` overwrites an earlier one), if any. */
  function FieldNamed(fields: seq<RenderedField>, name: string): (r: Option<RenderedField>)
    ensures r.Some? ==> r.value.name == name && r.value in fields
    ensures r.None? ==> forall j :: 0 <= j < |fields| ==> fields[j].name != name
  {
    if |fields| == 0 then None
    else
      var rest := FieldNamed(fields[1..], name);
      if rest.Some? then rest
      else if fields[0].name == name then Some(fields[0])
      else None
  }

  lemma {:induction false} FieldNamedAppend(a: seq<RenderedField>, b: seq<RenderedField>, name: string)
    ensures FieldNamed(a + b, name) == if FieldNamed(b, name).Some? then FieldNamed(b, name) else FieldNamed(a, name)
  {
    if |a| == 0 {
      assert a + b == b;
    } else {
      assert (a + b)[1..] == a[1..] + b;
      FieldNamedAppend(a[1..], b, name);
    }
  }

  /** The form shows a field exactly when the settings enable it, and marks
      it required exactly when the settings require it. */
  lemma FormFollowsSettings(option: Option<PhpArray>, i: nat)
    requires i < |Specs| && Settings.WellFormedOption(option)
    ensures var spec := Specs[i];
      FieldNamed(GetDownloadFormFields(option), spec.name)
        == if Settings.IsFieldEnabled(option, spec.key)
           then Some(RenderFormField(spec, Settings.IsFieldRequired(option, spec.key)))
           else None
  {
    var spec := Specs[i];
    assert spec.key == Settings.FieldKeys[i];
    Settings.FieldListsAgreeWithQueries(option, spec.key);
    FormFieldsListed(option, i);
  }

  /** The form shows a field when its key is listed as enabled, required
      when its key is listed as required. */
  lemma FormFieldsListed(option: Option<PhpArray>, i: nat)
    requires i < |Specs|
    ensures var spec := Specs[i];
      var enabled := Settings.GetEnabledFields(option);
      var required := Settings.GetRequiredFields(option);
      FieldNamed(GetDownloadFormFields(option), spec.name)
        == if spec.key in enabled then Some(RenderFormField(spec, spec.key in required)) else None
  {
    var spec := Specs[i];
    var enabled := Settings.GetEnabledFields(option);
    var required := Settings.GetRequiredFields(option);
    var f0 := FieldEntry(NameSpec, enabled, required);
    var f1 := FieldEntry(EmailSpec, enabled, required);
    var f2 := FieldEntry(PhoneSpec, enabled, required);
    FieldNamedAppend(f0 + f1, f2, spec.name);
    FieldNamedAppend(f0, f1, spec.name);
    FieldEntryNamed(NameSpec, enabled, required, spec.name);
    FieldEntryNamed(EmailSpec, enabled, required, spec.name);
    FieldEntryNamed(PhoneSpec, enabled, required, spec.name);
    if i == 0 {
      assert FieldNamed(f0 + f1 + f2, spec.name) == FieldNamed(f0, spec.name);
    } else if i == 1 {
      assert FieldNamed(f0 + f1 + f2, spec.name) == FieldNamed(f1, spec.name);
    } else {
      assert FieldNamed(f0 + f1 + f2, spec.name) == FieldNamed(f2, spec.name);
    }
  }

  lemma FieldEntryNamed(spec: FieldSpec, enabled: seq<string>, required: seq<string>, name: string)
    ensures FieldNamed(FieldEntry(spec, enabled, required), name)
         == if spec.key in enabled && name == spec.name then Some(RenderFormField(spec, spec.key in required))
            else None
  {
  }

  /** A rendered field agrees with a rule: same name, same required flag,
      the input type the rule names, and the rule is switched on. */
  predicate Matches(f: RenderedField, rule: (string, Rule)) {
    f.name == rule.0 && rule.1.enabled && f.required == rule.1.required && f.inputType == rule.1.ruleType
  }

  /** The form and the rules list the same fields in the same order, each
      field agreeing with its rule: what the form shows is what the script
      validates. */
  lemma FormMatchesRules(option: Option<PhpArray>)
    ensures var fields := GetDownloadFormFields(option);
      var rules := GetFormValidationRules(option);
      |fields| == |rules| && forall j :: 0 <= j < |fields| ==> Matches(fields[j], rules[j])
  {
    var enabled := Settings.GetEnabledFields(option);
    var required := Settings.GetRequiredFields(option);
    EntriesMatch(NameSpec, enabled, required);
    EntriesMatch(EmailSpec, enabled, required);
    EntriesMatch(PhoneSpec, enabled, required);
    var f := FieldEntry(NameSpec, enabled, required) + FieldEntry(EmailSpec, enabled, required);
    var r := RuleEntry(NameSpec, enabled, required) + RuleEntry(EmailSpec, enabled, required);
    MatchAppend(FieldEntry(NameSpec, enabled, required), RuleEntry(NameSpec, enabled, required),
                FieldEntry(EmailSpec, enabled, required), RuleEntry(EmailSpec, enabled, required));
    MatchAppend(f, r, FieldEntry(PhoneSpec, enabled, required), RuleEntry(PhoneSpec, enabled, required));
  }

  predicate AllMatch(fields: seq<RenderedField>, rules: Rules) {
    |fields| == |rules| && forall j :: 0 <= j < |fields| ==> Matches(fields[j], rules[j])
  }

  lemma EntriesMatch(spec: FieldSpec, enabled: seq<string>, required: seq<string>)
    requires spec.inputType == spec.ruleType
    ensures AllMatch(FieldEntry(spec, enabled, required), RuleEntry(spec, enabled, required))
  {
  }

  lemma MatchAppend(f1: seq<RenderedField>, r1: Rules, f2: seq<RenderedField>, r2: Rules)
    requires AllMatch(f1, r1) && AllMatch(f2, r2)
    ensures AllMatch(f1 + f2, r1 + r2)
  {
    assert forall j :: |f1| <= j < |f1| + |f2| ==> (f1 + f2)[j] == f2[j - |f1|] && (r1 + r2)[j] == r2[j - |f1|];
  }

  /** A rendered field is identified as `wprl_` followed by its name, and
      carries the `required` attribute and the label marker exactly when it
      is required: none of the three labels ends in the marker by itself. */
  lemma RenderedFieldMarks(i: nat, isRequired: bool)
    requires i < |Specs|
    ensures var f := RenderFormField(Specs[i], isRequired);
      && f.id == "wprl_" + f.name
      && (f.required <==> isRequired)
      && ((|f.caption| >= 2 && f.caption[|f.caption| - 2..] == RequiredMarker) <==> isRequired)
  {
    var spec := Specs[i];
    var caption := RenderFormField(spec, isRequired).caption;
    if isRequired {
      assert caption[|caption| - 2..] == RequiredMarker;
    } else {
      assert caption == spec.caption;
      assert caption[|caption| - 1] != '*';
    }
  }

  /** The position of a field in the fixed order name, e-mail, phone. */
  function Rank(name: string): nat {
    if name == NameSpec.name then 0 else if name == EmailSpec.name then 1 else 2
  }

  /** Every field of a list sits at position `r`. */
  predicate RankedAs(fields: seq<RenderedField>, r: nat) {
    forall j :: 0 <= j < |fields| ==> Rank(fields[j].name) == r
  }

  /** The fields in strictly increasing position. */
  predicate InFixedOrder(fields: seq<RenderedField>) {
    forall j, k :: 0 <= j < k < |fields| ==> Rank(fields[j].name) < Rank(fields[k].name)
  }

  lemma OrderedJoin(a: seq<RenderedField>, b: seq<RenderedField>, c: seq<RenderedField>)
    requires |a| <= 1 && |b| <= 1 && |c| <= 1
    requires RankedAs(a, 0) && RankedAs(b, 1) && RankedAs(c, 2)
    ensures InFixedOrder(a + b + c)
  {
    var fields := a + b + c;
    assert forall j :: 0 <= j < |fields| ==>
      Rank(fields[j].name) == if j < |a| then 0 else if j < |a| + |b| then 1 else 2;
  }

  /** The form lists its fields in the fixed order name, e-mail, phone, each
      at most once. */
  lemma FormInFixedOrder(option: Option<PhpArray>)
    ensures InFixedOrder(GetDownloadFormFields(option))
  {
    var enabled := Settings.GetEnabledFields(option);
    var required := Settings.GetRequiredFields(option);
    var f0 := FieldEntry(NameSpec, enabled, required);
    var f1 := FieldEntry(EmailSpec, enabled, required);
    var f2 := FieldEntry(PhoneSpec, enabled, required);
    EntryRankedAs(NameSpec, enabled, required, 0);
    EntryRankedAs(EmailSpec, enabled, required, 1);
    EntryRankedAs(PhoneSpec, enabled, required, 2);
    OrderedJoin(f0, f1, f2);
    assert GetDownloadFormFields(option) == f0 + f1 + f2;
  }

  lemma EntryRankedAs(spec: FieldSpec, enabled: seq<string>, required: seq<string>, r: nat)
    requires Rank(spec.name) == r
    ensures RankedAs(FieldEntry(spec, enabled, required), r)
  {
  }

  // ---------------------------------------------------------------------
  // The archive's main query
  // ---------------------------------------------------------------------

  /** Files per archive page. */
  const PostsPerPage := 12

  /** The meta key the "most downloaded" order sorts on. */
  const DownloadCountKey: string := "_wprl_download_count"

  /** What the request offers `modify_main_query`: whether it is an admin
      request, whether the query is the main one, whether it is the files
      archive, and the `$_GET` parameters. */
  datatype Request = Request(isAdmin: bool, isMainQuery: bool, isFilesArchive: bool, get: map<string, string>)

  /** `! empty( $_GET[$k] )`. */
  predicate Given(get: map<string, string>, k: string) {
    k in get && !EmptyString(get[k])
  }

  /** The order one `wprl_sort` choice asks for: an optional meta key, the
      `orderby` and the `order`. */
  datatype Sort = Sort(metaKey: Option<string>, orderby: string, order: string)

  /** The `switch` over the sanitized `wprl_sort` value. */
  function SortFor(choice: string): (s: Sort)
    ensures s.order == "ASC" || s.order == "DESC"
  {
    if choice == "date_asc" then Sort(None, "date", "ASC")
    else if choice == "title_asc" then Sort(None, "title", "ASC")
    else if choice == "title_desc" then Sort(None, "title", "DESC")
    else if choice == "downloads" then Sort(Some(DownloadCountKey), "meta_value_num", "DESC")
    else Sort(None, "date", "DESC")
  }

  /** The choices the switch names. */
  const SortChoices: seq<string> := ["date_asc", "title_asc", "title_desc", "downloads", "date_desc"]

  /** Any value the switch does not name sorts newest first, like
      `date_desc`; the named choices give five different orders, and only
      `downloads` sorts on a meta key. */
  lemma SortChoicesDistinct(a: string, b: string)
    ensures (a !in SortChoices[..4]) <==> SortFor(a) == SortFor("date_desc")
    ensures a in SortChoices && b in SortChoices && SortFor(a) == SortFor(b) ==> a == b
    ensures SortFor(a).metaKey.Some? <==> a == "downloads"
  {
    assert SortChoices[..4] == ["date_asc", "title_asc", "title_desc", "downloads"];
  }

  /** The `tax_query` of the category filter. */
  function TaxQuery(term: int): (v: Value)
    ensures v.Arr? && |v.entries| == 1
  {
    Arr([("0", Arr([("taxonomy", Str("wprl_file_category")), ("field", Str("term_id")), ("terms", Int(term))]))])
  }

  /** The `meta_query` of the file-type filter. */
  function MetaQuery(fileType: string): (v: Value)
    ensures v.Arr? && |v.entries| == 1
  {
    Arr([("0", Arr([("key", Str("_wprl_file_type")), ("value", Str(fileType))]))])
  }

  /** Whether `modify_main_query` acts on this request at all. */
  predicate Applies(req: Request) {
    !req.isAdmin && req.isMainQuery && req.isFilesArchive
  }

  /** Setting the variables of one order: the meta key when the order
      has one, then `orderby` and `order`. */
  function SetSort(vars: PhpArray, s: Sort): PhpArray {
    var withKey := if s.metaKey.Some? then Put(vars, "meta_key", Str(s.metaKey.value)) else vars;
    Put(Put(withKey, "orderby", Str(s.orderby)), "order", Str(s.order))
  }

  /** The sorting step. */
  function ApplySort(vars: PhpArray, get: map<string, string>, sanitizeText: string -> string): PhpArray {
    if Given(get, "wprl_sort") then SetSort(vars, SortFor(sanitizeText(get["wprl_sort"]))) else vars
  }

  /** One filter step: when the request gives parameter `param`, set
      variable `k` to the value it asks for. */
  function SetWhenGiven(vars: PhpArray, get: map<string, string>, param: string, k: string,
                        value: string -> Value): PhpArray
  {
    if Given(get, param) then Put(vars, k, value(get[param])) else vars
  }

  /** The search, category and file-type steps, after the page size. */
  function Filter(vars: PhpArray, get: map<string, string>, sanitizeText: string -> string,
                  sanitizeTitle: string -> string): PhpArray
  {
    var v1 := Put(vars, "posts_per_page", Int(PostsPerPage));
    var v2 := SetWhenGiven(v1, get, "wprl_search", "s", Search(sanitizeText));
    var v3 := SetWhenGiven(v2, get, "wprl_category", "tax_query", Category);
    SetWhenGiven(v3, get, "wprl_file_type", "meta_query", FileType(sanitizeTitle))
  }

  /** The value of the search variable. */
  function Search(sanitizeText: string -> string): string -> Value {
    (p: string) => Str(sanitizeText(p))
  }

  /** The value of the category variable: the term id `intval` reads. */
  function Category(p: string): Value {
    TaxQuery(IntVal(Str(p)))
  }

  /** The value of the file-type variable. */
  function FileType(sanitizeTitle: string -> string): string -> Value {
    (p: string) => MetaQuery(sanitizeTitle(p))
  }

  /** `modify_main_query` on the query's variables; `sanitizeText` is
      `sanitize_text_field(wp_unslash(…))` and `sanitizeTitle` is
      `sanitize_title_for_query(wp_unslash(…))`. */
  function ModifyMainQuery(vars: PhpArray, req: Request, sanitizeText: string -> string,
                           sanitizeTitle: string -> string): (r: PhpArray)
    ensures !Applies(req) ==> r == vars
  {
    if !Applies(req) then vars
    else ApplySort(Filter(vars, req.get, sanitizeText, sanitizeTitle), req.get, sanitizeText)
  }

  /** The value a request asks for under a query variable, independently of
      the variables already set; `None` when the request leaves it alone. */
  function Requested(get: map<string, string>, sanitizeText: string -> string,
                     sanitizeTitle: string -> string, k: string): Option<Value>
  {
    if k == "posts_per_page" then Some(Int(PostsPerPage))
    else if k == "s" then
      if Given(get, "wprl_search") then Some(Str(sanitizeText(get["wprl_search"]))) else None
    else if k == "tax_query" then
      if Given(get, "wprl_category") then Some(TaxQuery(IntVal(Str(get["wprl_category"])))) else None
    else if k == "meta_query" then
      if Given(get, "wprl_file_type") then Some(MetaQuery(sanitizeTitle(get["wprl_file_type"]))) else None
    else if !Given(get, "wprl_sort") then None
    else
      var s := SortFor(sanitizeText(get["wprl_sort"]));
      if k == "orderby" then Some(Str(s.orderby))
      else if k == "order" then Some(Str(s.order))
      else if k == "meta_key" && s.metaKey.Some? then Some(Str(s.metaKey.value))
      else None
  }

  /** Setting an order, read back key by key. */
  lemma SetSortLookup(vars: PhpArray, s: Sort, k: string)
    ensures Lookup(SetSort(vars, s), k)
         == if k == "order" then Str(s.order)
            else if k == "orderby" then Str(s.orderby)
            else if k == "meta_key" && s.metaKey.Some? then Str(s.metaKey.value)
            else Lookup(vars, k)
  {
  }

  /** One filter step, read back key by key. */
  lemma SetWhenGivenLookup(vars: PhpArray, get: map<string, string>, param: string, k: string,
                           value: string -> Value, j: string)
    ensures Lookup(SetWhenGiven(vars, get, param, k, value), j)
         == if j == k && Given(get, param) then value(get[param]) else Lookup(vars, j)
  {
  }

  /** The filter steps, read back key by key. */
  lemma FilterLookup(vars: PhpArray, get: map<string, string>, sanitizeText: string -> string,
                     sanitizeTitle: string -> string, k: string)
    requires k == "posts_per_page" || k == "s" || k == "tax_query" || k == "meta_query"
    ensures Lookup(Filter(vars, get, sanitizeText, sanitizeTitle), k)
         == Requested(get, sanitizeText, sanitizeTitle, k).GetOr(Lookup(vars, k))
  {
    var v1 := Put(vars, "posts_per_page", Int(PostsPerPage));
    var v2 := SetWhenGiven(v1, get, "wprl_search", "s", Search(sanitizeText));
    var v3 := SetWhenGiven(v2, get, "wprl_category", "tax_query", Category);
    SetWhenGivenLookup(v1, get, "wprl_search", "s", Search(sanitizeText), k);
    SetWhenGivenLookup(v2, get, "wprl_category", "tax_query", Category, k);
    SetWhenGivenLookup(v3, get, "wprl_file_type", "meta_query", FileType(sanitizeTitle), k);
  }

  /** The filter steps leave every other variable alone. */
  lemma FilterKeepsOthers(vars: PhpArray, get: map<string, string>, sanitizeText: string -> string,
                          sanitizeTitle: string -> string, k: string)
    requires k != "posts_per_page" && k != "s" && k != "tax_query" && k != "meta_query"
    ensures Lookup(Filter(vars, get, sanitizeText, sanitizeTitle), k) == Lookup(vars, k)
  {
    var v1 := Put(vars, "posts_per_page", Int(PostsPerPage));
    var v2 := SetWhenGiven(v1, get, "wprl_search", "s", Search(sanitizeText));
    var v3 := SetWhenGiven(v2, get, "wprl_category", "tax_query", Category);
    SetWhenGivenLookup(v1, get, "wprl_search", "s", Search(sanitizeText), k);
    SetWhenGivenLookup(v2, get, "wprl_category", "tax_query", Category, k);
    SetWhenGivenLookup(v3, get, "wprl_file_type", "meta_query", FileType(sanitizeTitle), k);
  }

  /** The sorting step sets only the three order variables, to what the
      request asks for. */
  lemma ApplySortLookup(vars: PhpArray, get: map<string, string>, sanitizeText: string -> string,
                        sanitizeTitle: string -> string, k: string)
    ensures Lookup(ApplySort(vars, get, sanitizeText), k)
         == if k == "orderby" || k == "order" || k == "meta_key"
            then Requested(get, sanitizeText, sanitizeTitle, k).GetOr(Lookup(vars, k))
            else Lookup(vars, k)
  {
    if Given(get, "wprl_sort") {
      var sort := SortFor(sanitizeText(get["wprl_sort"]));
      SetSortLookup(vars, sort, k);
      assert Requested(get, sanitizeText, sanitizeTitle, k)
          == if k == "orderby" then Some(Str(sort.orderby))
             else if k == "order" then Some(Str(sort.order))
             else if k == "meta_key" && sort.metaKey.Some? then Some(Str(sort.metaKey.value))
             else if k == "posts_per_page" || k == "s" || k == "tax_query" || k == "meta_query"
             then Requested(get, sanitizeText, sanitizeTitle, k)
             else None;
    }
  }

  /** On the archive's main query every variable reads back as the request
      asks: twelve files a page, the search, category and file-type filters
      when given, the order the sort choice names; a variable the request
      leaves alone keeps its value. */
  lemma ArchiveQueryLookup(vars: PhpArray, req: Request, sanitizeText: string -> string,
                           sanitizeTitle: string -> string, k: string)
    requires Applies(req)
    ensures Lookup(ModifyMainQuery(vars, req, sanitizeText, sanitizeTitle), k)
         == Requested(req.get, sanitizeText, sanitizeTitle, k).GetOr(Lookup(vars, k))
  {
    var filtered := Filter(vars, req.get, sanitizeText, sanitizeTitle);
    assert ModifyMainQuery(vars, req, sanitizeText, sanitizeTitle) == ApplySort(filtered, req.get, sanitizeText);
    ApplySortLookup(filtered, req.get, sanitizeText, sanitizeTitle, k);
    if k == "posts_per_page" || k == "s" || k == "tax_query" || k == "meta_query" {
      FilterLookup(vars, req.get, sanitizeText, sanitizeTitle, k);
    } else {
      FilterKeepsOthers(vars, req.get, sanitizeText, sanitizeTitle, k);
    }
  }

  /** Twelve files a page on the archive's main query, whatever the request. */
  lemma ArchivePageSize(vars: PhpArray, req: Request, sanitizeText: string -> string,
                        sanitizeTitle: string -> string)
    requires Applies(req)
    ensures Lookup(ModifyMainQuery(vars, req, sanitizeText, sanitizeTitle), "posts_per_page") == Int(PostsPerPage)
  {
    ArchiveQueryLookup(vars, req, sanitizeText, sanitizeTitle, "posts_per_page");
  }

  /** Running the adjustment a second time changes nothing a lookup can
      see: every variable it sets depends on the request alone. */
  lemma ModifyMainQueryIdempotent(vars: PhpArray, req: Request, sanitizeText: string -> string,
                                  sanitizeTitle: string -> string, k: string)
    ensures var once := ModifyMainQuery(vars, req, sanitizeText, sanitizeTitle);
      Lookup(ModifyMainQuery(once, req, sanitizeText, sanitizeTitle), k) == Lookup(once, k)
  {
    if Applies(req) {
      var once := ModifyMainQuery(vars, req, sanitizeText, sanitizeTitle);
      ArchiveQueryLookup(vars, req, sanitizeText, sanitizeTitle, k);
      ArchiveQueryLookup(once, req, sanitizeText, sanitizeTitle, k);
    }
  }
}
