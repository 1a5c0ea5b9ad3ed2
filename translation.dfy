/**
 * The two translation lookups. The context's `t` falls back from the chosen
 * language to English to the key itself and then fills `{name}` placeholders
 * one parameter at a time; the older hook's `t` falls back to English only.
 * JavaScript's `||` keeps its left operand only when it is truthy, so an
 * empty entry falls through just like a missing one.
 */
module Translation {
  import opened Types
  import opened Strings

  /** `translations`: language -> key -> text. */
  type Tables = map<string, map<string, string>>

  /** The language the app starts in and falls back to. */
  const English: string := "en"

  /** `translations[lang][key]`, `None` for `undefined`. */
  function Entry(tables: Tables, lang: string, key: string): (e: Option<string>)
    ensures e.Some? <==> lang in tables && key in tables[lang]
    ensures e.Some? ==> e.value == tables[lang][key]
  {
    if lang in tables && key in tables[lang] then Some(tables[lang][key]) else None
  }

  /** JavaScript truthiness of a looked-up text: present and not empty. */
  predicate Truthy(e: Option<string>)
  {
    e.Some? && e.value != ""
  }

  /** `translations[language][key] || translations['en'][key] || key` */
  function ContextBase(tables: Tables, lang: string, key: string): (text: string)
    requires lang in tables && English in tables
    ensures Truthy(Entry(tables, lang, key)) ==> text == tables[lang][key]
    ensures !Truthy(Entry(tables, lang, key)) && Truthy(Entry(tables, English, key)) ==> text == tables[English][key]
    ensures !Truthy(Entry(tables, lang, key)) && !Truthy(Entry(tables, English, key)) ==> text == key
    ensures key != "" ==> text != ""
  {
    var current := Entry(tables, lang, key);
    var english := Entry(tables, English, key);
    if Truthy(current) then current.value
    else if Truthy(english) then english.value
    else key
  }

  /** The placeholder `{k}` a parameter named `k` fills. */
  function Placeholder(k: string): (ph: string)
    ensures |ph| == |k| + 2 && ph[0] == '{' && ph[|ph| - 1] == '}'
  {
    "{" + k + "}"
  }

  /** The substitutions of the `forEach`, in parameter order: each replaces the first `{k}` by its value. */
  function SubstituteAll(text: string, params: seq<(string, string)>): (r: string)
    ensures params == [] ==> r == text
    decreases |params|
  {
    if params == [] then text
    else SubstituteAll(ReplaceFirst(text, Placeholder(params[0].0), params[0].1), params[1..])
  }

  /**
   * The context's `t(key, params)`. The values are given already converted
   * by `String(v)`, in the order `Object.entries` lists them.
   */
  method Translate(tables: Tables, lang: string, key: string, params: Option<seq<(string, string)>>)
    returns (text: string)
    requires lang in tables && English in tables
    ensures params.None? ==> text == ContextBase(tables, lang, key)
    ensures params.Some? ==> text == SubstituteAll(ContextBase(tables, lang, key), params.value)
  {
    text := ContextBase(tables, lang, key);
    if params.Some? {
      var ps := params.value;
      ghost var base := text;
      for i := 0 to |ps|
        invariant SubstituteAll(text, ps[i..]) == SubstituteAll(base, ps)
      {
        assert ps[i..][1..] == ps[i + 1..];
        text := ReplaceFirst(text, Placeholder(ps[i].0), ps[i].1);
      }
      assert ps[|ps|..] == [];
    }
  }

  /** Substituting two parameter lists one after the other is substituting their concatenation. */
  lemma {:induction false} SubstituteAppend(text: string, p: seq<(string, string)>, q: seq<(string, string)>)
    ensures SubstituteAll(text, p + q) == SubstituteAll(SubstituteAll(text, p), q)
    decreases |p|
  {
    if p != [] {
      assert (p + q)[1..] == p[1..] + q;
      SubstituteAppend(ReplaceFirst(text, Placeholder(p[0].0), p[0].1), p[1..], q);
    } else {
      assert p + q == q;
    }
  }

  /** Parameters whose placeholders do not occur leave the text untouched. */
  lemma {:induction false} AbsentPlaceholdersKeepText(text: string, params: seq<(string, string)>)
    requires forall j :: 0 <= j < |params| ==> IndexOf(text, Placeholder(params[j].0), 0).None?
    ensures SubstituteAll(text, params) == text
    decreases |params|
  {
    if params != [] {
      assert ReplaceFirst(text, Placeholder(params[0].0), params[0].1) == text;
      assert forall j :: 0 <= j < |params[1..]| ==> params[1..][j] == params[j + 1];
      AbsentPlaceholdersKeepText(text, params[1..]);
    }
  }

  /**
   * When no `{k}` starts inside `pre`, the `{k}` after it is the one
   * replaced, and the rest of the text, later copies of `{k}` included,
   * stays as it was.
   */
  lemma {:induction false} OnlyFirstPlaceholderFilled(pre: string, k: string, v: string, rest: string)
    requires IndexOf(pre + Placeholder(k), Placeholder(k), 0) == Some(|pre|)
    ensures SubstituteAll(pre + Placeholder(k) + rest, [(k, v)]) == pre + v + rest
  {
    var ph := Placeholder(k);
    var head := pre + ph;
    var s := head + rest;
    assert s[..|head|] == head;
    assert s[|pre|..|pre| + |ph|] == ph;
    forall i: nat | i < |pre| ensures !OccursAt(s, ph, i) {
      assert !OccursAt(head, ph, i);
      assert s[i..i + |ph|] == head[i..i + |ph|];
    }
    IndexOfIs(s, ph, 0, |pre|);
    assert s[..|pre|] == pre;
    assert s[|pre| + |ph|..] == rest;
    assert [(k, v)][1..] == [];
  }

  /** `translations[language][key] || translations['en'][key]`: the English entry as it is, `None` for `undefined`. */
  function HookT(tables: Tables, lang: string, key: string): (text: Option<string>)
    requires lang in tables && English in tables
    ensures Truthy(Entry(tables, lang, key)) ==> text == Some(tables[lang][key])
    ensures !Truthy(Entry(tables, lang, key)) ==> text == Entry(tables, English, key)
  {
    var current := Entry(tables, lang, key);
    if Truthy(current) then current else Entry(tables, English, key)
  }

  /**
   * The two `t`s agree whenever either language has a non-empty entry; when
   * neither has, the context returns the key and the hook the raw English
   * entry (missing or empty).
   */
  lemma {:induction false} LookupsAgree(tables: Tables, lang: string, key: string)
    requires lang in tables && English in tables
    ensures Truthy(Entry(tables, lang, key)) || Truthy(Entry(tables, English, key)) ==>
      HookT(tables, lang, key) == Some(ContextBase(tables, lang, key))
    ensures !Truthy(Entry(tables, lang, key)) && !Truthy(Entry(tables, English, key)) ==>
      ContextBase(tables, lang, key) == key && !Truthy(HookT(tables, lang, key))
  {
  }

  /** What reading `app_settings` produced. */
  datatype StoredSettings =
    | NothingStored                      // `getItem` gave null or the empty text
    | ReadFailed                         // `getItem` or `JSON.parse` threw
    | Parsed(language: Option<string>)   // the parsed object's `language` field

  /** `getLanguage()` once the stored settings are read. */
  function GetLanguage(stored: StoredSettings): (lang: string)
    ensures lang != ""
    ensures stored.Parsed? && stored.language.Some? && stored.language.value != "" ==> lang == stored.language.value
    ensures !(stored.Parsed? && stored.language.Some? && stored.language.value != "") ==> lang == English
  {
    match stored
    case Parsed(Some(l)) => if l != "" then l else English
    case _ => English
  }
}
