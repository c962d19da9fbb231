/** Text helpers the bot uses when it shows listings and contacts: the short
    listing title, truncation of long descriptions and the masked phone number. */
module Display {
  import opened Wrappers
  import opened Text
  import Users

  const Untitled := "без названия"
  const Ellipsis: char := '…'
  const TitleLimit: nat := 42

  /** `formatListingTitle(title)`: a placeholder for a missing or empty title; the
      trimmed title when it has at most 42 characters; otherwise its first 39
      characters and an ellipsis. */
  function FormatListingTitle(title: Option<string>): (r: string)
    ensures |r| <= TitleLimit
    ensures title.None? || title == Some("") ==> r == Untitled
    ensures title.Some? && title.value != "" && |Trim(title.value)| <= TitleLimit ==> r == Trim(title.value)
    ensures title.Some? && |Trim(title.value)| > TitleLimit ==>
      r == Trim(title.value)[..39] + [Ellipsis] && NoEdgeSpace(r)
  {
    if title.None? || title.value == "" then Untitled
    else
      var trimmed := Trim(title.value);
      if |trimmed| <= TitleLimit then trimmed
      else
        var r := trimmed[..39] + [Ellipsis];
        assert r[0] == trimmed[0];
        r
  }

  /** Shortening a title again changes nothing, unless the title was blank: a
      title of spaces shortens to the empty string, which the second pass turns
      into the placeholder. */
  lemma FormatListingTitleSettles(title: Option<string>)
    ensures title.Some? && title.value != "" && Trim(title.value) == "" ==>
      FormatListingTitle(title) == "" && FormatListingTitle(Some(FormatListingTitle(title))) == Untitled
    ensures !(title.Some? && title.value != "" && Trim(title.value) == "") ==>
      FormatListingTitle(Some(FormatListingTitle(title))) == FormatListingTitle(title)
  {
    var r := FormatListingTitle(title);
    if title.None? || title.value == "" {
      UntitledIsTrimmed();
      SettledTitle(Untitled);
    } else if Trim(title.value) != "" {
      SettledTitle(r);
    }
  }

  /** A non-empty title without edge whitespace that fits is shown as it is. */
  lemma SettledTitle(r: string)
    requires r != "" && NoEdgeSpace(r) && |r| <= TitleLimit
    ensures FormatListingTitle(Some(r)) == r
  {
    TrimOfTrimmed(r);
  }

  lemma UntitledIsTrimmed()
    ensures NoEdgeSpace(Untitled) && |Untitled| <= TitleLimit
  {
    assert Untitled[0] == 'б' && Untitled[|Untitled| - 1] == 'я';
  }

  /** `truncateText(text, limit)`: the trimmed text when it fits; otherwise its
      first `limit - 1` characters, trimmed at the end, and an ellipsis. With a
      zero limit `slice(0, -1)` drops only the last character. */
  function TruncateText(text: Option<string>, limit: nat): (r: string)
    ensures var value := Trim(text.GetOr(""));
      (|value| <= limit ==> r == value)
      && (|value| > limit ==> |r| > 0 && r[|r| - 1] == Ellipsis)
    ensures limit >= 1 ==> |r| <= limit
    ensures NoEdgeSpace(r)
  {
    var value := Trim(text.GetOr(""));
    if |value| <= limit then value
    else
      var cut := if limit >= 1 then limit - 1 else |value| - 1;
      var head := TrimEnd(value[..cut]);
      var r := head + [Ellipsis];
      assert |head| > 0 ==> head[0] == value[0];
      r
  }

  /** Truncating twice with the same positive limit is truncating once. */
  lemma TruncateTextIdempotent(text: Option<string>, limit: nat)
    requires limit >= 1
    ensures TruncateText(Some(TruncateText(text, limit)), limit) == TruncateText(text, limit)
  {
    TrimOfTrimmed(TruncateText(text, limit));
  }

  /** `maskPhoneValue(phone)`: one `*` per digit of the number, at least eight;
      eight for a missing number. */
  function MaskPhone(phone: Option<string>): (r: string)
    ensures |r| >= 8 && forall i | 0 <= i < |r| :: r[i] == '*'
    ensures phone.Some? && phone.value != "" && |Users.DigitsOf(phone.value)| >= 8 ==>
      |r| == |Users.DigitsOf(phone.value)|
  {
    if phone.None? || phone.value == "" then Repeat('*', 8)
    else
      var n := |Users.DigitsOf(phone.value)|;
      Repeat('*', if n > 8 then n else 8)
  }

  /** The mask reveals only how many digits a number has: numbers with the same
      digit count look the same, and no digit ever shows. */
  lemma MaskRevealsOnlyLength(p: string, q: string)
    requires p != "" && q != "" && |Users.DigitsOf(p)| == |Users.DigitsOf(q)|
    ensures MaskPhone(Some(p)) == MaskPhone(Some(q))
    ensures forall i | 0 <= i < |MaskPhone(Some(p))| :: !IsDigit(MaskPhone(Some(p))[i])
  {
  }
}
