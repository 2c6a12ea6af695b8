/**
 * Interface text of `src/lib/i18n.ts`: three dictionaries, the chosen
 * language kept in browser storage, lookup with the key as fallback,
 * `{name}` placeholder filling, and the topic list of each language.
 */
module I18n {
  import opened Wrappers
  import opened Text

  /** The storage slot of the chosen language. */
  const LangKey: string := "anima-lang"

  const En: map<string, string> := map[
    "appName" := "Anima", "appTag" := "your gentle friend",
    "continue" := "Continue",
    "talk_title" := "Talk to an AI Psychologist",
    "talk_sub" := "Kind, private, always here to listen.",
    "proof_title" := "Anima is already used by 80,000 people",
    "name_title" := "How should I address you?",
    "name_hint" := "You can change this later.",
    "name_placeholder" := "Your name",
    "topics_title" := "Choose the topics that are close to you",
    "mood_title" := "How is your mood?",
    "mood_bad" := "BAD", "mood_mid" := "NOT BAD", "mood_good" := "GOOD",
    "chat_placeholder" := "Write what’s on your mind…",
    "send" := "Send",
    "footer" := "© {year} Anima",
    "go_landing" := "Go to landing", "back_chat" := "Back to chat"
  ]

  const Ru: map<string, string> := map[
    "appName" := "Anima", "appTag" := "твой добрый друг",
    "continue" := "Продолжить",
    "talk_title" := "Поговори с ИИ-психологом",
    "talk_sub" := "Доброжелательно, приватно, всегда рядом.",
    "proof_title" := "Anima уже пользуются 80 000 человек",
    "name_title" := "Как мне к тебе обращаться?",
    "name_hint" := "Это можно изменить позже.",
    "name_placeholder" := "Твоё имя",
    "topics_title" := "Выбери темы, которые близки тебе",
    "mood_title" := "Как твоё настроение?",
    "mood_bad" := "ПЛОХО", "mood_mid" := "НЕПЛОХО", "mood_good" := "ХОРОШО",
    "chat_placeholder" := "Напиши, что на душе…",
    "send" := "Отправить",
    "footer" := "© {year} Anima",
    "go_landing" := "На лендинг", "back_chat" := "Назад в чат"
  ]

  const Es: map<string, string> := map[
    "appName" := "Anima", "appTag" := "tu amigo amable",
    "continue" := "Continuar",
    "talk_title" := "Habla con un psicólogo de IA",
    "talk_sub" := "Amable, privado, siempre dispuesto a escuchar.",
    "proof_title" := "Anima ya lo usan 80.000 personas",
    "name_title" := "¿Cómo debería dirigirme a ti?",
    "name_hint" := "Puedes cambiarlo más tarde.",
    "name_placeholder" := "Tu nombre",
    "topics_title" := "Elige los temas que te interesan",
    "mood_title" := "¿Cómo está tu ánimo?",
    "mood_bad" := "MAL", "mood_mid" := "NO TAN MAL", "mood_good" := "BIEN",
    "chat_placeholder" := "Escribe lo que tienes en mente…",
    "send" := "Enviar",
    "footer" := "© {year} Anima",
    "go_landing" := "Ir a portada", "back_chat" := "Volver al chat"
  ]

  /** The dictionaries by language code. */
  const Dict: map<string, map<string, string>> := map["en" := En, "ru" := Ru, "es" := Es]

  /** The three dictionaries translate exactly the same keys. */
  lemma {:induction false} SameKeys()
    ensures En.Keys == Ru.Keys && Ru.Keys == Es.Keys
    ensures Dict.Keys == {"en", "ru", "es"}
  {
  }

  /** `getLang`: the stored code, or `en` when nothing (or the empty text) is stored. */
  function GetLang(store: map<string, string>): (r: string)
    ensures r != ""
    ensures LangKey in store && store[LangKey] != "" ==> r == store[LangKey]
    ensures LangKey !in store || store[LangKey] == "" ==> r == "en"
  {
    if LangKey in store && store[LangKey] != "" then store[LangKey] else "en"
  }

  /** `setLang`: the language slot holds `lang`, and every other slot is kept. */
  function SetLang(store: map<string, string>, lang: string): (r: map<string, string>)
    ensures r.Keys == store.Keys + {LangKey}
    ensures r[LangKey] == lang
    ensures forall k :: k in store && k != LangKey ==> r[k] == store[k]
  {
    store[LangKey := lang]
  }

  /** A language that is set is the language read back, and no other slot changes. */
  lemma {:induction false} SetThenGet(store: map<string, string>, lang: string)
    requires lang in Dict
    ensures GetLang(SetLang(store, lang)) == lang
    ensures forall k :: k in store && k != LangKey ==> k in SetLang(store, lang) && SetLang(store, lang)[k] == store[k]
  {
    SameKeys();
  }

  /** With nothing stored the language is English. */
  lemma {:induction false} DefaultIsEnglish(store: map<string, string>)
    requires LangKey !in store
    ensures GetLang(store) == "en" && GetLang(store) in Dict
  {
    SameKeys();
  }

  /** `table[key] ?? key`: the entry, or the key itself when the table has none. */
  function Lookup(table: map<string, string>, key: string): (r: string)
    ensures key in table ==> r == table[key]
    ensures key !in table ==> r == key
  {
    if key in table then table[key] else key
  }

  /**
   * A key that no dictionary translates is shown as it is, in every
   * language; `App.tsx` asks for such a key, "How old are you?".
   */
  lemma {:induction false} UntranslatedKeyIsItself(lang: string, key: string)
    requires lang in Dict && key !in En
    ensures Lookup(Dict[lang], key) == key
  {
    SameKeys();
    assert key !in Dict[lang];
  }

  /** The text `{k}` a variable named `k` replaces. */
  function Placeholder(name: string): (p: string)
    ensures |p| == |name| + 2 && p[0] == '{' && p[|p| - 1] == '}'
  {
    "{" + name + "}"
  }

  /** The variables applied in order, each replacing every occurrence of its placeholder. */
  function Substitute(s: string, vars: seq<(string, string)>): (r: string)
    ensures (forall i :: 0 <= i < |vars| ==> !Occurs(s, Placeholder(vars[i].0))) ==> r == s
  {
    if vars == [] then s
    else
      var (k, v) := vars[|vars| - 1];
      ReplaceAll(Substitute(s, vars[..|vars| - 1]), Placeholder(k), v)
  }

  /**
   * The names every object literal inherits from `Object.prototype`.
   * Indexing the dictionaries object with one of them finds a built-in
   * (a function, or the prototype itself) instead of `undefined`.
   */
  const InheritedNames: set<string> := {
    "constructor", "__proto__", "__defineGetter__", "__defineSetter__",
    "__lookupGetter__", "__lookupSetter__", "hasOwnProperty", "isPrototypeOf",
    "propertyIsEnumerable", "toString", "toLocaleString", "valueOf"
  }

  /**
   * `(dict as any)[lang]`: a language's dictionary; for an inherited name,
   * a built-in with no property named like a dictionary key (an empty
   * table); for any other code, `undefined` (`None`).
   */
  function Table(lang: string): Option<map<string, string>> {
    if lang in Dict then Some(Dict[lang])
    else if lang in InheritedNames then Some(map[])
    else None
  }

  /** No language code is an inherited name, so each code finds its own dictionary. */
  lemma {:induction false} TableCases(lang: string)
    ensures Table(lang).None? <==> lang !in Dict && lang !in InheritedNames
    ensures lang in Dict ==> Table(lang) == Some(Dict[lang])
    ensures lang in InheritedNames ==> Table(lang) == Some(map[])
  {
    SameKeys();
  }

  /** The text after the optional variables are filled in. */
  function Fill(s: string, vars: Option<seq<(string, string)>>): string {
    match vars
    case None => s
    case Some(entries) => Substitute(s, entries)
  }

  /**
   * `t(key, vars)` in the language stored in `store`.  `vars` holds the entries of the
   * variables object in iteration order, values already turned into text
   * by `String`.  A stored code that is neither a language nor an
   * inherited name makes the lookup fail (a `TypeError` on `undefined`):
   * `None`.  An inherited name finds no dictionary entry, so a dictionary
   * key falls back to itself.
   */
  method T(store: map<string, string>, key: string, vars: Option<seq<(string, string)>>) returns (r: Option<string>)
    ensures GetLang(store) !in Dict && GetLang(store) !in InheritedNames ==> r == None
    ensures GetLang(store) in Dict ==> r == Some(Fill(Lookup(Dict[GetLang(store)], key), vars))
    ensures GetLang(store) in InheritedNames && key in En ==> r == Some(Fill(key, vars))
  {
    var lang := GetLang(store);
    TableCases(lang);
    var table := Table(lang);
    if table.None? {
      return None;
    }
    var s := Lookup(table.value, key);
    if vars.Some? {
      var entries := vars.value;
      ghost var entry := s;
      var i := 0;
      while i < |entries|
        invariant 0 <= i <= |entries|
        invariant s == Substitute(entry, entries[..i])
      {
        var (k, v) := entries[i];
        assert entries[..i + 1][..i] == entries[..i];
        s := ReplaceAll(s, Placeholder(k), v);
        i := i + 1;
      }
      assert entries[..i] == entries;
    }
    return Some(s);
  }

  /** A variable whose placeholder does not occur changes nothing. */
  lemma {:induction false} UnusedVariable(s: string, name: string, value: string)
    requires !Occurs(s, Placeholder(name))
    ensures Substitute(s, [(name, value)]) == s
  {
    assert [(name, value)][..0] == [];
  }

  /** A placeholder used twice is filled in both places. */
  lemma {:induction false} RepeatedPlaceholder(name: string, value: string, m: string)
    requires '$' !in value && '{' !in m
    ensures Substitute(Placeholder(name) + m + Placeholder(name), [(name, value)]) == value + m + value
  {
    var p := Placeholder(name);
    SubstituteOne(p + m + p, name, value);
    forall i | 0 <= i < |m|
      ensures !OccursAt(m + p, p, i)
    {
      assert (m + p)[i] == m[i];
      FirstCharDiffers(m + p, p, i);
    }
    ReplaceAllTwice(p, m, value);
  }

  /** The footer: the current year fills `{year}`, in every language. */
  lemma {:induction false} FooterYear(lang: string, year: string)
    requires lang in Dict && year == "2025"
    ensures Substitute(Lookup(Dict[lang], "footer"), [("year", year)]) == "© 2025 Anima"
  {
    assert Lookup(Dict[lang], "footer") == "© {year} Anima";
    FillYear("© {year} Anima", year);
  }

  /** One variable: every occurrence of its placeholder is replaced. */
  lemma {:induction false} SubstituteOne(s: string, name: string, value: string)
    ensures Substitute(s, [(name, value)]) == ReplaceAll(s, Placeholder(name), value)
  {
    assert [(name, value)][..0] == [];
  }

  lemma {:induction false} FillYear(s: string, year: string)
    requires s == "© {year} Anima" && year == "2025"
    ensures Substitute(s, [("year", year)]) == "© 2025 Anima"
  {
    var a, p, b := "© ", Placeholder("year"), " Anima";
    FooterSplits(s, a, p, b);
    SubstituteOne(s, "year", year);
    ReplaceAllPast(a, p, b, year);
    ExpandLiteral(year, a, p, b);
    FooterJoins(a, year, b);
  }

  /** `$&` as the year puts the placeholder back: the footer keeps its template. */
  lemma {:induction false} FooterDollarMatch(s: string, year: string)
    requires s == "© {year} Anima" && year == "$&"
    ensures Substitute(s, [("year", year)]) == s
  {
    var a, p, b := "© ", Placeholder("year"), " Anima";
    FooterSplits(s, a, p, b);
    SubstituteOne(s, "year", year);
    ReplaceAllPast(a, p, b, year);
    ExpandMatched(a, p, b);
  }

  /** The footer template is `{year}` with one text before and one after, neither holding it. */
  lemma {:induction false} FooterSplits(s: string, a: string, p: string, b: string)
    requires s == "© {year} Anima" && a == "© " && p == Placeholder("year") && b == " Anima"
    ensures s == a + p + b && |p| > 0 && !Occurs(b, p)
    ensures forall i :: 0 <= i < |a| ==> !OccursAt(a + p + b, p, i)
  {
    assert p == "{year}";
    forall i | 0 <= i < |a|
      ensures !OccursAt(a + p + b, p, i)
    {
      FirstCharDiffers(a + p + b, p, i);
    }
    TooShortToOccur(b, p);
  }

  lemma {:induction false} FooterJoins(a: string, year: string, b: string)
    requires a == "© " && year == "2025" && b == " Anima"
    ensures a + year + b == "© 2025 Anima"
  {
  }

  const TopicsEn: seq<string> := ["Anxiety", "Motivation", "Study", "Relationships", "Sleep", "Confidence", "Habits", "Work", "Money", "Family", "Sport", "Other"]
  const TopicsRu: seq<string> := ["Тревога", "Мотивация", "Учёба", "Отношения", "Сон", "Уверенность", "Привычки", "Работа", "Деньги", "Семья", "Спорт", "Другое"]
  const TopicsEs: seq<string> := ["Ansiedad", "Motivación", "Estudio", "Relaciones", "Sueño", "Confianza", "Hábitos", "Trabajo", "Dinero", "Familia", "Deporte", "Otro"]

  /** `topicsFor`: Russian and Spanish have their own lists; any other code gets the English one. */
  function TopicsFor(lang: string): (r: seq<string>)
    ensures |r| == 12
    ensures lang == "ru" ==> r == TopicsRu
    ensures lang == "es" ==> r == TopicsEs
    ensures lang != "ru" && lang != "es" ==> r == TopicsEn
  {
    if lang == "ru" then TopicsRu else if lang == "es" then TopicsEs else TopicsEn
  }
}
