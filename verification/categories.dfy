/** Item categories: the seven canonical ids, the alias table that folds legacy and
    synonym ids onto them, and the per-category attribute questionnaires.
    The mini-app client and the bot server each carry a copy of the alias table;
    the server's has one more (identity) entry. */
module Categories {
  import opened Wrappers
  import opened Text

  /** One entry of the category picker. */
  datatype CategoryOption = CategoryOption(id: string, caption: string, emoji: string)

  const Options: seq<CategoryOption> := [
    CategoryOption("pet", "Животные", "🐾"),
    CategoryOption("electronics", "Электроника", "📱"),
    CategoryOption("wear", "Одежда и аксессуары", "👜"),
    CategoryOption("document", "Документы", "📄"),
    CategoryOption("valuable", "Ценности", "💍"),
    CategoryOption("keys", "Ключи", "🔑"),
    CategoryOption("other", "Другое", "❓")
  ]

  /** Is `id` one of the seven canonical category ids? */
  predicate IsCanonical(id: string) {
    id in {"pet", "electronics", "wear", "document", "valuable", "keys", "other"}
  }

  /** The alias table of the mini-app (`CATEGORY_ALIASES[lower]`). */
  function ClientAlias(lower: string): Option<string> {
    match lower
    case "phone" => Some("electronics")
    case "gadget" => Some("electronics")
    case "bag" => Some("wear")
    case "clothes" => Some("wear")
    case "clothing" => Some("wear")
    case "wallet" => Some("valuable")
    case "valuables" => Some("valuable")
    case "jewelry" => Some("valuable")
    case "misc" => Some("other")
    case "unknown" => Some("other")
    case _ => None
  }

  /** The alias table of the bot server. */
  function ServerAlias(lower: string): Option<string> {
    match lower
    case "phone" => Some("electronics")
    case "electronics" => Some("electronics")
    case "gadget" => Some("electronics")
    case "bag" => Some("wear")
    case "clothes" => Some("wear")
    case "clothing" => Some("wear")
    case "wallet" => Some("valuable")
    case "valuables" => Some("valuable")
    case "jewelry" => Some("valuable")
    case "misc" => Some("other")
    case "unknown" => Some("other")
    case _ => None
  }

  /** `normalizeCategoryId` against a given alias table: a missing or empty id is
      returned as it is; otherwise the lower-cased id, replaced by its alias target
      when it has one. */
  function NormalizeWith(alias: string -> Option<string>, category: Option<string>): (r: Option<string>)
    ensures category.None? ==> r.None?
    ensures category == Some("") ==> r == Some("")
    ensures category.Some? && category.value != "" ==>
              r == Some(alias(Lower(category.value)).GetOr(Lower(category.value)))
  {
    match category
    case None => None
    case Some(c) =>
      if c == "" then Some("")
      else
        var lower := Lower(c);
        Some(alias(lower).GetOr(lower))
  }

  /** The mini-app's `normalizeCategoryId`. */
  function NormalizeClient(category: Option<string>): Option<string> {
    NormalizeWith(ClientAlias, category)
  }

  /** The bot server's `normalizeCategoryId`. */
  function Normalize(category: Option<string>): Option<string> {
    NormalizeWith(ServerAlias, category)
  }

  /** Every code point of `s` is already lower case. */
  predicate IsLowerCased(s: string) {
    forall i | 0 <= i < |s| :: LowerChar(s[i]) == s[i]
  }

  lemma LowerOfLowerCased(s: string)
    requires IsLowerCased(s)
    ensures Lower(s) == s
  {
  }

  lemma LowerIsLowerCased(s: string)
    ensures IsLowerCased(Lower(s))
  {
    forall i | 0 <= i < |s| ensures LowerChar(Lower(s)[i]) == Lower(s)[i] {
      LowerCharIdempotent(s[i]);
    }
  }

  lemma CanonicalIdsAreLowerCased(id: string)
    requires IsCanonical(id)
    ensures IsLowerCased(id) && id != ""
  {
  }

  /** A canonical id normalises to itself and has a questionnaire. */
  lemma CanonicalIsNormal(id: string)
    requires IsCanonical(id)
    ensures Normalize(Some(id)) == Some(id)
    ensures |FieldsOf(Some(id))| > 0
  {
    CanonicalIdsAreLowerCased(id);
    LowerOfLowerCased(id);
  }

  /** Every alias of the server table points at a canonical id that is not itself
      redirected elsewhere. */
  lemma ServerAliasTargetsAreCanonical(k: string)
    requires ServerAlias(k).Some?
    ensures IsCanonical(ServerAlias(k).value)
    ensures ServerAlias(ServerAlias(k).value).GetOr(ServerAlias(k).value) == ServerAlias(k).value
  {
  }

  /** Every alias of the mini-app table points at a canonical id, and the server
      table agrees with it on every key the mini-app knows. */
  lemma ClientAliasTargetsAreCanonical(k: string)
    requires ClientAlias(k).Some?
    ensures IsCanonical(ClientAlias(k).value)
    ensures ServerAlias(k) == ClientAlias(k)
  {
  }

  /** The two copies of the alias table normalise every input identically: the only
      extra server entry maps `electronics` to itself. */
  lemma NormalizersAgree(category: Option<string>)
    ensures NormalizeClient(category) == Normalize(category)
  {
    if category.Some? && category.value != "" {
      var lower := Lower(category.value);
      if ClientAlias(lower).Some? {
        ClientAliasTargetsAreCanonical(lower);
      }
    }
  }

  /** Normalising an already normalised id changes nothing. */
  lemma NormalizeIdempotent(category: Option<string>)
    ensures Normalize(Normalize(category)) == Normalize(category)
  {
    if category.Some? && category.value != "" {
      var lower := Lower(category.value);
      LowerIsLowerCased(category.value);
      if ServerAlias(lower).Some? {
        var t := ServerAlias(lower).value;
        ServerAliasTargetsAreCanonical(lower);
        CanonicalIdsAreLowerCased(t);
        LowerOfLowerCased(t);
      } else {
        LowerOfLowerCased(lower);
        assert |lower| == |category.value|;
      }
    }
  }

  /** `getCategoryOption` (server): the picker entry of the normalised id. */
  function OptionOf(category: Option<string>): (r: Option<CategoryOption>)
    ensures r.Some? ==> r.value in Options && Normalize(category) == Some(r.value.id)
    ensures r.None? ==> forall o | o in Options :: Normalize(category) != Some(o.id)
  {
    var n := Normalize(category);
    if n.Some? && IsCanonical(n.value) then
      var i := if n.value == "pet" then 0 else if n.value == "electronics" then 1
        else if n.value == "wear" then 2 else if n.value == "document" then 3
        else if n.value == "valuable" then 4 else if n.value == "keys" then 5 else 6;
      Some(Options[i])
    else None
  }

  /** `getCategoryMeta` (mini-app): the picker entry of the normalised id, or an
      "other"-looking entry that still carries that id (`other` when there is none). */
  function Meta(category: Option<string>): (r: CategoryOption)
    ensures r.id == NormalizeClient(category).GetOr("other")
    ensures r in Options || (r.caption == "Другое" && r.emoji == "❓")
    ensures IsCanonical(r.id) <==> r in Options
  {
    NormalizersAgree(category);
    var n := NormalizeClient(category);
    match OptionOf(category)
    case Some(o) => o
    case None => CategoryOption(n.GetOr("other"), "Другое", "❓")
  }

  /** Every alias, in any letter case, resolves to a picker entry. */
  lemma AliasesHaveOptions(k: string)
    requires ClientAlias(Lower(k)).Some?
    ensures Meta(Some(k)) in Options && Meta(Some(k)).id == ClientAlias(Lower(k)).value
  {
    ClientAliasTargetsAreCanonical(Lower(k));
    assert |k| > 0;
  }

  /** One question of a category's questionnaire. `secretHint` marks the fields
      whose answer is also kept as a candidate ownership secret. */
  datatype Field = Field(key: string, caption: string, required: bool, secretHint: bool)

  /** `CATEGORY_FIELD_SETS`, keyed by canonical id. */
  function FieldSet(id: string): (fields: seq<Field>)
    ensures |fields| > 0 <==> IsCanonical(id)
    ensures forall i | 0 <= i < |fields| :: fields[i].key != ""
  {
    match id
    case "pet" => [
      Field("species", "Вид", true, false),
      Field("breed", "Порода", false, false),
      Field("color", "Окрас / приметы", true, false),
      Field("size", "Размер", false, false),
      Field("nickname", "Кличка / опознавательные знаки", false, false)]
    case "electronics" => [
      Field("device", "Устройство", true, false),
      Field("color", "Цвет", true, false),
      Field("condition", "Особенности", false, false),
      Field("serial_hint", "Уникальная метка", false, true)]
    case "wear" => [
      Field("item_type", "Тип предмета", true, false),
      Field("brand", "Бренд / марка", false, false),
      Field("color", "Цвет / материал", true, false),
      Field("features", "Отличительные приметы", false, false)]
    case "document" => [
      Field("doc_type", "Тип документа", true, false),
      Field("name_hint", "Фамилия/инициалы", true, false),
      Field("extra", "Дополнительные данные", false, true)]
    case "valuable" => [
      Field("item", "Предмет", true, false),
      Field("looks", "Внешний вид", true, false),
      Field("value_hint", "Уникальные детали", false, true)]
    case "keys" => [
      Field("key_type", "Тип ключей", true, false),
      Field("bundle", "Связка / аксессуары", false, false),
      Field("unique", "Уникальные признаки", false, false)]
    case "other" => [
      Field("item", "Что за предмет", true, false),
      Field("appearance", "Внешний вид", true, false),
      Field("tags", "Дополнительные приметы", false, false)]
    case _ => []
  }

  /** The keys of a questionnaire are pairwise distinct. */
  predicate DistinctKeys(fields: seq<Field>) {
    forall i, j | 0 <= i < j < |fields| :: fields[i].key != fields[j].key
  }

  /** `getCategoryFields`: the questionnaire of the normalised category, empty when
      the category is missing or unknown. */
  function FieldsOf(category: Option<string>): (fields: seq<Field>)
    ensures DistinctKeys(fields)
    ensures forall i | 0 <= i < |fields| :: fields[i].key != ""
    ensures |fields| > 0 <==> (Normalize(category).Some? && IsCanonical(Normalize(category).value))
  {
    var n := Normalize(category);
    if n.None? || n.value == "" then []
    else
      FieldSetDistinct(n.value);
      FieldSet(n.value)
  }

  lemma FieldSetDistinct(id: string)
    ensures DistinctKeys(FieldSet(id))
  {
    if id == "pet" {
      PetKeysDistinct();
    } else if id == "electronics" {
      ElectronicsKeysDistinct();
    } else if id == "wear" {
      WearKeysDistinct();
    } else if id == "document" {
      DocumentKeysDistinct();
    } else if id == "valuable" {
      ValuableKeysDistinct();
    } else if id == "keys" {
      KeysKeysDistinct();
    } else if id == "other" {
      OtherKeysDistinct();
    }
  }

  lemma PetKeysDistinct()
    ensures DistinctKeys(FieldSet("pet"))
  {
  }

  lemma ElectronicsKeysDistinct()
    ensures DistinctKeys(FieldSet("electronics"))
  {
  }

  lemma WearKeysDistinct()
    ensures DistinctKeys(FieldSet("wear"))
  {
  }

  lemma DocumentKeysDistinct()
    ensures DistinctKeys(FieldSet("document"))
  {
  }

  lemma ValuableKeysDistinct()
    ensures DistinctKeys(FieldSet("valuable"))
  {
  }

  lemma KeysKeysDistinct()
    ensures DistinctKeys(FieldSet("keys"))
  {
  }

  lemma OtherKeysDistinct()
    ensures DistinctKeys(FieldSet("other"))
  {
  }

  /** `getAttributeField`: the field of the questionnaire with the given key. */
  function FieldOf(category: Option<string>, key: Option<string>): (r: Option<Field>)
    ensures r.Some? <==> key.Some? && key.value != "" && exists f | f in FieldsOf(category) :: f.key == key.value
    ensures r.Some? ==> r.value in FieldsOf(category) && r.value.key == key.value
  {
    if key.None? || key.value == "" then None
    else FindField(FieldsOf(category), key.value)
  }

  /** The first field with the given key. */
  function FindField(fields: seq<Field>, key: string): (r: Option<Field>)
    ensures r.Some? <==> exists f | f in fields :: f.key == key
    ensures r.Some? ==> r.value in fields && r.value.key == key
  {
    if |fields| == 0 then None
    else if fields[0].key == key then Some(fields[0])
    else FindField(fields[1..], key)
  }
}
