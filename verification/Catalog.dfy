// The translation files as loaded, and the text a visitor gets for a message.

module Catalog {
  import opened Wrappers
  import opened Template

  const MAX_TAG_LENGTH := 35
  const UNKNOWN := "Unknown"

  /** Per key, the values its texts may refer to; any other key gets none. */
  const CONTEXT_NAMES: seq<(string, seq<string>)> := [
    ("InfoSelfServiceRecoveryMessageMaskedWithCodeSent", ["masked_address"]),
    ("ErrorValidationMinLength", ["min_length", "actual_length"]),
    ("ErrorValidationMaxLength", ["max_length", "actual_length"]),
    ("ErrorValidationPasswordMinLength", ["min_length", "actual_length"]),
    ("ErrorValidationPasswordMaxLength", ["max_length", "actual_length"]),
    ("ErrorValidationMinimum", ["minimum", "actual"]),
    ("ErrorValidationExclusiveMinimum", ["minimum", "actual"]),
    ("ErrorValidationMaximum", ["maximum", "actual"]),
    ("ErrorValidationExclusiveMaximum", ["maximum", "actual"]),
    ("ErrorValidationMultipleOf", ["base", "actual"]),
    ("ErrorValidationMaxItems", ["max_items", "actual_items"]),
    ("ErrorValidationMinItems", ["min_items", "actual_items"]),
    ("InfoSelfServiceLoginWith", ["provider", "provider_id"]),
    ("InfoSelfServiceLoginWithAndLink", ["provider"]),
    ("InfoSelfServiceLoginAAL2CodeAddress", ["address", "channel"]),
    ("InfoSelfServiceRegistrationWith", ["provider", "provider_id"]),
    ("InfoSelfServiceSettingsUpdateLinkOidc", ["provider"]),
    ("InfoSelfServiceSettingsUpdateUnlinkOidc", ["provider"]),
    ("InfoSelfServiceSettingsRemoveWebAuthn", ["display_name", "added_at", "added_at_unix"]),
    ("InfoSelfServiceSettingsRemovePasskey", ["display_name", "added_at", "added_at_unix"])
  ]

  /** The names the text of a field may use. */
  const GENERATED: seq<string> := ["title", "name"]

  /** One language file. */
  datatype Locale = Locale(messages: map<string, string>, labels: map<string, string>, fields: map<string, string>)

  /** The numeric ids that have a translation, with their keys, and the names each key may use. */
  datatype Ids = Ids(messages: seq<(nat, string)>, labels: seq<(nat, string)>, contextNames: seq<(string, seq<string>)>)
  {
    function AllowedNames(key: string): seq<string> { NamesOf(contextNames, key) }

    /** The general text is not among those that may use names, as it is not in `CONTEXT_NAMES`. */
    ghost predicate GeneralTextIsPlain() {
      forall i :: 0 <= i < |contextNames| ==> contextNames[i].0 != UNKNOWN
    }
  }

  datatype Catalog = Catalog(fallback: string, locales: map<string, Locale>)

  function NamesOf(table: seq<(string, seq<string>)>, key: string): seq<string> {
    if table == [] then []
    else if table[0].0 == key then table[0].1
    else NamesOf(table[1..], key)
  }

  function KeyOf(table: seq<(nat, string)>, id: nat): string {
    if table == [] then UNKNOWN
    else if table[0].0 == id then table[0].1
    else KeyOf(table[1..], id)
  }

  predicate IsKey(table: seq<(nat, string)>, key: string) {
    exists i :: 0 <= i < |table| && table[i].1 == key
  }

  // ---- Checking a file ----

  predicate UsesOnly(text: string, allowed: seq<string>) {
    Listed(text).Some? && forall name <- Listed(text).value :: name in allowed
  }

  predicate TextsOk(texts: map<string, string>, byKey: bool, ids: Ids) {
    forall key <- texts :: UsesOnly(texts[key], if byKey then ids.AllowedNames(key) else GENERATED)
  }

  predicate KeysOk(locale: Locale, ids: Ids) {
    && (forall key <- locale.messages :: IsKey(ids.messages, key) || key == UNKNOWN)
    && (forall key <- locale.labels :: IsKey(ids.labels, key))
    && TextsOk(locale.messages, true, ids) && TextsOk(locale.labels, true, ids) && TextsOk(locale.fields, false, ids)
  }

  predicate Complete(locale: Locale, ids: Ids) {
    && UNKNOWN in locale.messages
    && (forall i :: 0 <= i < |ids.messages| ==> ids.messages[i].1 in locale.messages)
    && (forall i :: 0 <= i < |ids.labels| ==> ids.labels[i].1 in locale.labels)
  }

  method CheckTexts(texts: map<string, string>, byKey: bool, ids: Ids) returns (ok: bool)
    ensures ok <==> TextsOk(texts, byKey, ids)
  {
    var left := texts.Keys;
    while left != {}
      invariant left <= texts.Keys
      invariant forall key <- texts.Keys - left ::
        UsesOnly(texts[key], if byKey then ids.AllowedNames(key) else GENERATED)
    {
      var key :| key in left;
      var allowed := if byKey then ids.AllowedNames(key) else GENERATED;
      var names := Placeholders(texts[key]);
      if names.None? || exists name <- names.value :: name !in allowed {
        assert !UsesOnly(texts[key], allowed);
        return false;
      }
      left := left - {key};
    }
    ok := true;
  }

  method CheckKeys(locale: Locale, ids: Ids) returns (ok: bool)
    ensures ok <==> KeysOk(locale, ids)
  {
    if exists key <- locale.messages :: !IsKey(ids.messages, key) && key != UNKNOWN { return false; }
    if exists key <- locale.labels :: !IsKey(ids.labels, key) { return false; }
    ok := CheckTexts(locale.messages, true, ids);
    if ok {
      ok := CheckTexts(locale.labels, true, ids);
    }
    if ok {
      ok := CheckTexts(locale.fields, false, ids);
    }
  }

  // ---- Loading ----

  /** A `<stem>.json` file; `locale` is `None` when it cannot be read or parsed. */
  datatype File = File(stem: string, locale: Option<Locale>)

  datatype LoadError = BadTag | BadFile | BadKeys | TagTwice | NoFallback | Incomplete

  function LowerChar(c: char): char {
    if 'A' <= c <= 'Z' then c - 'A' + 'a' else c
  }

  function Lower(text: string): string {
    seq(|text|, i requires 0 <= i < |text| => LowerChar(text[i]))
  }

  predicate TagOk(tag: string) {
    1 <= |tag| <= MAX_TAG_LENGTH
    && forall c <- tag :: 'a' <= c <= 'z' || 'A' <= c <= 'Z' || '0' <= c <= '9' || c == '-'
  }

  predicate FileOk(file: File, ids: Ids) {
    TagOk(Lower(file.stem)) && file.locale.Some? && KeysOk(file.locale.value, ids)
  }

  ghost predicate AllOk(files: seq<File>, ids: Ids) {
    && (forall i :: 0 <= i < |files| ==> FileOk(files[i], ids))
    && forall i, j :: 0 <= i < j < |files| ==> Lower(files[i].stem) != Lower(files[j].stem)
  }

  ghost predicate Loadable(files: seq<File>, fallback: string, ids: Ids) {
    && AllOk(files, ids)
    && exists i :: 0 <= i < |files| && Lower(files[i].stem) == Lower(fallback) && Complete(files[i].locale.value, ids)
  }

  /** `locales` holds exactly these files under their lowered tags. */
  ghost predicate Holds(locales: map<string, Locale>, files: seq<File>) {
    && (forall i :: 0 <= i < |files| ==>
          Lower(files[i].stem) in locales && files[i].locale == Some(locales[Lower(files[i].stem)]))
    && (forall tag <- locales :: exists i :: 0 <= i < |files| && Lower(files[i].stem) == tag)
  }

  /** What every later request relies on. */
  ghost predicate WellLoaded(catalog: Catalog, ids: Ids) {
    && (forall tag <- catalog.locales :: KeysOk(catalog.locales[tag], ids))
    && catalog.fallback in catalog.locales
    && Complete(catalog.locales[catalog.fallback], ids)
  }

  method Load(files: seq<File>, fallback: string, ids: Ids) returns (r: Result<Catalog, LoadError>)
    ensures r.Ok? <==> Loadable(files, fallback, ids)
    ensures r.Ok? ==> r.value.fallback == Lower(fallback) && Holds(r.value.locales, files)
    ensures r.Ok? ==> WellLoaded(r.value, ids)
  {
    var locales: map<string, Locale> := map[];
    for i := 0 to |files|
      invariant AllOk(files[..i], ids) && Holds(locales, files[..i])
    {
      var error := CheckFile(files[i], ids);
      if error.None? && Lower(files[i].stem) in locales {
        error := Some(TagTwice);
      }
      if error.Some? {
        BadFileBlocks(files, i, locales, ids);
        return Err(error.value);
      }
      OneMoreFile(locales, files[..i], files[i], ids);
      locales := locales[Lower(files[i].stem) := files[i].locale.value];
      assert files[..i + 1] == files[..i] + [files[i]];
    }
    assert files[..|files|] == files;
    HeldFilesAreOk(locales, files, ids);
    var tag := Lower(fallback);
    if tag !in locales { return Err(NoFallback); }
    if !Complete(locales[tag], ids) { return Err(Incomplete); }
    r := Ok(Catalog(tag, locales));
  }

  method CheckFile(file: File, ids: Ids) returns (error: Option<LoadError>)
    ensures error.None? <==> FileOk(file, ids)
  {
    if !TagOk(Lower(file.stem)) { return Some(BadTag); }
    if file.locale.None? { return Some(BadFile); }
    var ok := CheckKeys(file.locale.value, ids);
    error := if ok then None else Some(BadKeys);
  }

  lemma BadFileBlocks(files: seq<File>, i: nat, locales: map<string, Locale>, ids: Ids)
    requires i < |files| && Holds(locales, files[..i])
    requires !FileOk(files[i], ids) || Lower(files[i].stem) in locales
    ensures !AllOk(files, ids)
  {
    if FileOk(files[i], ids) {
      var j :| 0 <= j < i && Lower(files[..i][j].stem) == Lower(files[i].stem);
      assert files[..i][j] == files[j];
    }
  }

  lemma OneMoreFile(locales: map<string, Locale>, files: seq<File>, file: File, ids: Ids)
    requires AllOk(files, ids) && Holds(locales, files)
    requires FileOk(file, ids) && Lower(file.stem) !in locales
    ensures AllOk(files + [file], ids)
    ensures Holds(locales[Lower(file.stem) := file.locale.value], files + [file])
  {
    var all, more := files + [file], locales[Lower(file.stem) := file.locale.value];
    forall tag <- more ensures exists i :: 0 <= i < |all| && Lower(all[i].stem) == tag {
      if tag == Lower(file.stem) {
        assert all[|files|] == file;
      } else {
        var i :| 0 <= i < |files| && Lower(files[i].stem) == tag;
        assert all[i] == files[i];
      }
    }
  }

  lemma HeldFilesAreOk(locales: map<string, Locale>, files: seq<File>, ids: Ids)
    requires Holds(locales, files) && AllOk(files, ids)
    ensures forall tag <- locales :: KeysOk(locales[tag], ids)
  {
  }

  // ---- The text of a message ----

  type Section = Locale -> map<string, string>

  /** The filled-in text one language has for `key`. */
  function TextIn(catalog: Catalog, language: string, section: Section, key: string, context: Context): Option<string> {
    if language in catalog.locales && key in section(catalog.locales[language])
    then Filled(section(catalog.locales[language])[key], context)
    else None
  }

  function OrElse<T>(one: Option<T>, two: Option<T>): Option<T> {
    if one.Some? then one else two
  }

  function Found(catalog: Catalog, language: string, section: Section, key: string, context: Context): Option<string> {
    OrElse(TextIn(catalog, language, section, key, context), TextIn(catalog, catalog.fallback, section, key, context))
  }

  function Messages(locale: Locale): map<string, string> { locale.messages }

  function MessageFound(catalog: Catalog, ids: Ids, language: string, id: nat, context: Context): Option<string> {
    OrElse(
      Found(catalog, language, Messages, KeyOf(ids.messages, id), context),
      Found(catalog, language, Messages, UNKNOWN, map[]))
  }

  method FindIn(catalog: Catalog, language: string, section: Section, key: string, context: Context)
    returns (text: Option<string>)
    ensures text == TextIn(catalog, language, section, key, context)
  {
    if language in catalog.locales && key in section(catalog.locales[language]) {
      text := Fill(section(catalog.locales[language])[key], context);
    } else {
      text := None;
    }
  }

  method Find(catalog: Catalog, language: string, section: Section, key: string, context: Context)
    returns (text: Option<string>)
    ensures text == Found(catalog, language, section, key, context)
  {
    var languages := [language, catalog.fallback];
    for i := 0 to 2
      invariant forall j :: 0 <= j < i ==> TextIn(catalog, languages[j], section, key, context).None?
    {
      text := FindIn(catalog, languages[i], section, key, context);
      if text.Some? {
        assert i == 1 ==> TextIn(catalog, languages[0], section, key, context).None?;
        return;
      }
    }
    assert TextIn(catalog, languages[0], section, key, context).None? && TextIn(catalog, languages[1], section, key, context).None?;
    text := None;
  }

  /** The text shown for message `id`; on a loaded catalog the empty default is never used. */
  method Message(catalog: Catalog, ids: Ids, language: string, id: nat, context: Context) returns (text: string)
    ensures text == (match MessageFound(catalog, ids, language, id, context) case Some(found) => found case None => "")
    ensures WellLoaded(catalog, ids) && ids.GeneralTextIsPlain() ==> MessageFound(catalog, ids, language, id, context) == Some(text)
  {
    var found := Find(catalog, language, Messages, KeyOf(ids.messages, id), context);
    if found.None? {
      found := Find(catalog, language, Messages, UNKNOWN, map[]);
    }
    if found.Some? {
      text := found.value;
    } else {
      text := "";
    }
    if WellLoaded(catalog, ids) && ids.GeneralTextIsPlain() {
      MessageAlwaysFound(catalog, ids, language, id, context);
    }
  }

  lemma {:induction false} NoNamesUnlessListed(table: seq<(string, seq<string>)>, key: string)
    requires forall i :: 0 <= i < |table| ==> table[i].0 != key
    ensures NamesOf(table, key) == []
  {
    if table != [] {
      NoNamesUnlessListed(table[1..], key);
    }
  }

  lemma GeneralTextIsNotListed(ids: Ids)
    requires ids.contextNames == CONTEXT_NAMES
    ensures ids.GeneralTextIsPlain()
  {
    assert forall i :: 0 <= i < |CONTEXT_NAMES| ==> |CONTEXT_NAMES[i].0| > 7;
  }

  lemma {:induction false} KeyIsKnown(table: seq<(nat, string)>, id: nat)
    ensures KeyOf(table, id) == UNKNOWN || IsKey(table, KeyOf(table, id))
  {
    if table != [] && table[0].0 != id {
      KeyIsKnown(table[1..], id);
      var key := KeyOf(table[1..], id);
      if IsKey(table[1..], key) {
        var i :| 0 <= i < |table[1..]| && table[1..][i].1 == key;
        assert table[i + 1].1 == key;
      }
    }
  }

  /** A checked text fails to fill in exactly when a value it names is missing or not a scalar. */
  lemma CheckedTextFills(text: string, allowed: seq<string>, context: Context)
    requires UsesOnly(text, allowed)
    ensures Filled(text, context).Some? <==> forall name <- Listed(text).value :: Lookup(context, name).Some?
  {
    ScannersAgree(text, context);
  }

  /** On a loaded catalog every message has a text, in every language and for every context. */
  lemma MessageAlwaysFound(catalog: Catalog, ids: Ids, language: string, id: nat, context: Context)
    requires WellLoaded(catalog, ids) && ids.GeneralTextIsPlain()
    ensures MessageFound(catalog, ids, language, id, context).Some?
  {
    var texts := catalog.locales[catalog.fallback].messages;
    NoNamesUnlessListed(ids.contextNames, UNKNOWN);
    CheckedTextFills(texts[UNKNOWN], [], map[]);
  }

  /** The language's own text for `key` lacks one of the values it names. */
  predicate Lacks(catalog: Catalog, language: string, key: string, context: Context) {
    language in catalog.locales && key in catalog.locales[language].messages
    ==> var names := Listed(catalog.locales[language].messages[key]);
        names.Some? ==> exists name <- names.value :: Lookup(context, name).None?
  }

  /** The message's own text is given up for the general one exactly when Kratos left out a value it needs. */
  lemma OwnTextIffValuesSent(catalog: Catalog, ids: Ids, language: string, id: nat, context: Context)
    requires WellLoaded(catalog, ids)
    ensures var key := KeyOf(ids.messages, id);
            Found(catalog, language, Messages, key, context).None? <==>
            Lacks(catalog, language, key, context) && Lacks(catalog, catalog.fallback, key, context)
  {
    var key := KeyOf(ids.messages, id);
    KeyIsKnown(ids.messages, id);
    forall tag <- catalog.locales | key in catalog.locales[tag].messages
      ensures TextIn(catalog, tag, Messages, key, context).None? <==> Lacks(catalog, tag, key, context)
    {
      CheckedTextFills(catalog.locales[tag].messages[key], ids.AllowedNames(key), context);
    }
  }

  /** When every name the key may use comes with a scalar, the visitor's own language answers if it has the key. */
  lemma AllValuesSentMeansOwnLanguage(catalog: Catalog, ids: Ids, language: string, id: nat, context: Context)
    requires WellLoaded(catalog, ids)
    requires forall name <- ids.AllowedNames(KeyOf(ids.messages, id)) :: Lookup(context, name).Some?
    ensures var key := KeyOf(ids.messages, id);
            var tag := if language in catalog.locales && key in catalog.locales[language].messages
                       then language else catalog.fallback;
            key in catalog.locales[tag].messages
            && MessageFound(catalog, ids, language, id, context) == Filled(catalog.locales[tag].messages[key], context)
  {
    var key := KeyOf(ids.messages, id);
    KeyIsKnown(ids.messages, id);
    forall tag <- catalog.locales | key in catalog.locales[tag].messages
      ensures TextIn(catalog, tag, Messages, key, context).Some?
    {
      CheckedTextFills(catalog.locales[tag].messages[key], ids.AllowedNames(key), context);
    }
  }

  // ---- The tables and the order of the texts ----

  /** A listed id has the key of its first row, any other the general one. */
  lemma {:induction false} KeyOfItsRow(table: seq<(nat, string)>, id: nat)
    ensures forall i :: 0 <= i < |table| && table[i].0 == id && (forall j :: 0 <= j < i ==> table[j].0 != id) ==>
      KeyOf(table, id) == table[i].1
    ensures (forall i :: 0 <= i < |table| ==> table[i].0 != id) ==> KeyOf(table, id) == "Unknown"
  {
    if table != [] && table[0].0 != id {
      KeyOfItsRow(table[1..], id);
      forall i | 0 <= i < |table| && table[i].0 == id && (forall j :: 0 <= j < i ==> table[j].0 != id)
        ensures KeyOf(table, id) == table[i].1
      {
        assert table[1..][i - 1] == table[i];
        assert forall j :: 0 <= j < i - 1 ==> table[1..][j] == table[j + 1];
      }
    }
  }

  /** A listed key may use the names of its first row, any other none. */
  lemma {:induction false} NamesOfItsRow(table: seq<(string, seq<string>)>, key: string)
    ensures forall i :: 0 <= i < |table| && table[i].0 == key && (forall j :: 0 <= j < i ==> table[j].0 != key) ==>
      NamesOf(table, key) == table[i].1
    ensures (forall i :: 0 <= i < |table| ==> table[i].0 != key) ==> NamesOf(table, key) == []
  {
    if table != [] && table[0].0 != key {
      NamesOfItsRow(table[1..], key);
      forall i | 0 <= i < |table| && table[i].0 == key && (forall j :: 0 <= j < i ==> table[j].0 != key)
        ensures NamesOf(table, key) == table[i].1
      {
        assert table[1..][i - 1] == table[i];
        assert forall j :: 0 <= j < i - 1 ==> table[1..][j] == table[j + 1];
      }
    }
  }

  /** The text that a language's messages have for `key`, filled in. */
  function Translated(catalog: Catalog, language: string, key: string, context: Context): Option<string> {
    if language !in catalog.locales || key !in catalog.locales[language].messages then None
    else Filled(catalog.locales[language].messages[key], context)
  }

  /**
   * The four texts a message may get, in this order: its own in the visitor's language and in the
   * default's, then the general one in the visitor's and in the default's, to which no value is given.
   */
  lemma MessageOrder(catalog: Catalog, ids: Ids, language: string, id: nat, context: Context, row: nat)
    requires row < |ids.messages| && ids.messages[row].0 == id && forall j :: 0 <= j < row ==> ids.messages[j].0 != id
    ensures var key, found := ids.messages[row].1, MessageFound(catalog, ids, language, id, context);
      if Translated(catalog, language, key, context).Some? then found == Translated(catalog, language, key, context)
      else if Translated(catalog, catalog.fallback, key, context).Some?
      then found == Translated(catalog, catalog.fallback, key, context)
      else if Translated(catalog, language, "Unknown", map[]).Some? then found == Translated(catalog, language, "Unknown", map[])
      else found == Translated(catalog, catalog.fallback, "Unknown", map[])
  {
    KeyOfItsRow(ids.messages, id);
  }

  /** A file stops the loading exactly if its tag, one of its keys or one of its texts is not as it must be. */
  lemma FileOkIff(file: File, ids: Ids)
    ensures FileOk(file, ids) <==>
      && 1 <= |file.stem| <= 35
      && (forall c <- file.stem :: 'a' <= c <= 'z' || 'A' <= c <= 'Z' || '0' <= c <= '9' || c == '-')
      && file.locale.Some?
      && var locale := file.locale.value;
         && (forall key <- locale.messages :: key == "Unknown" || exists i :: 0 <= i < |ids.messages| && ids.messages[i].1 == key)
         && (forall key <- locale.labels :: exists i :: 0 <= i < |ids.labels| && ids.labels[i].1 == key)
         && (forall key <- locale.messages :: OnlyNames(locale.messages[key], NamesOf(ids.contextNames, key)))
         && (forall key <- locale.labels :: OnlyNames(locale.labels[key], NamesOf(ids.contextNames, key)))
         && (forall key <- locale.fields :: OnlyNames(locale.fields[key], ["title", "name"]))
  {
    LowerKeepsTags(file.stem);
  }

  /** The text is closed and uses no other names. */
  predicate OnlyNames(text: string, names: seq<string>) {
    Listed(text).Some? && forall name <- Listed(text).value :: name in names
  }

  /** Lowering the case changes capital letters only, and makes no tag better or worse. */
  lemma LowerKeepsTags(tag: string)
    ensures |Lower(tag)| == |tag|
    ensures forall i :: 0 <= i < |tag| ==>
      Lower(tag)[i] as int == if 'A' <= tag[i] <= 'Z' then tag[i] as int + 32 else tag[i] as int
    ensures TagOk(Lower(tag)) <==>
      1 <= |tag| <= 35 && forall c <- tag :: 'a' <= c <= 'z' || 'A' <= c <= 'Z' || '0' <= c <= '9' || c == '-'
  {
    assert forall i :: 0 <= i < |tag| ==> Lower(tag)[i] == LowerChar(tag[i]);
    if TagOk(Lower(tag)) {
      forall c <- tag ensures 'a' <= c <= 'z' || 'A' <= c <= 'Z' || '0' <= c <= '9' || c == '-' {
        var i :| 0 <= i < |tag| && tag[i] == c;
        assert Lower(tag)[i] in Lower(tag);
      }
    }
    if 1 <= |tag| <= 35 && forall c <- tag :: 'a' <= c <= 'z' || 'A' <= c <= 'Z' || '0' <= c <= '9' || c == '-' {
      forall c <- Lower(tag) ensures 'a' <= c <= 'z' || 'A' <= c <= 'Z' || '0' <= c <= '9' || c == '-' {
        var i :| 0 <= i < |tag| && Lower(tag)[i] == c;
        assert tag[i] in tag;
      }
    }
  }

  /** Nothing is missing from the default language of a loaded catalog. */
  lemma DefaultIsComplete(catalog: Catalog, ids: Ids)
    requires WellLoaded(catalog, ids)
    ensures catalog.fallback in catalog.locales
    ensures var locale := catalog.locales[catalog.fallback];
      && "Unknown" in locale.messages
      && (forall i :: 0 <= i < |ids.messages| ==> ids.messages[i].1 in locale.messages)
      && (forall i :: 0 <= i < |ids.labels| ==> ids.labels[i].1 in locale.labels)
  {
  }
}
