/** The keyword staging panel (`KeywordSelectorView`): predefined keyword
    chips, a custom keyword field, and the Clear, Load from Photo and
    chip-remove buttons, all editing the view model's `editingKeywords`. */
module KeywordSelector {
  import opened Wrappers
  import opened Collections
  import opened Metadata
  import opened Photos
  import opened Library
  import Text

  /** The set of a keyword list (`Set(keywords)`). */
  function KeywordSet(keywords: seq<string>): (r: set<string>)
    ensures forall w :: w in r <==> w in keywords
  {
    set w | w in keywords
  }

  /** Toggling one chip's keyword flips that chip and no other. */
  lemma ToggleFlipsOneChip(s: set<string>, toggled: PhotoKeyword, chip: PhotoKeyword)
    ensures chip.RawValue() in Toggled(s, toggled.RawValue()) <==>
      if chip == toggled then chip.RawValue() !in s else chip.RawValue() in s
  {
    if chip.RawValue() == toggled.RawValue() {
      RawValueInjective(chip, toggled);
    }
  }

  /** What `addCustomKeyword` does to the set: nothing for input that is
      blank once trimmed, otherwise insert the trimmed text. */
  function AddTrimmed(s: set<string>, input: string): (r: set<string>)
    ensures Text.Trim(input) == [] ==> r == s
    ensures Text.Trim(input) != [] ==> r == s + {Text.Trim(input)}
  {
    var trimmed := Text.Trim(input);
    if trimmed == [] then s else s + {trimmed}
  }

  /** A keyword added from the field never starts or ends with whitespace,
      and adding the same input twice adds it once. */
  lemma AddedKeywordIsTrimmed(s: set<string>, input: string)
    ensures forall w :: w in AddTrimmed(s, input) && w !in s ==>
      w != [] && !Text.IsWhitespace(w[0]) && !Text.IsWhitespace(w[|w| - 1])
    ensures AddTrimmed(AddTrimmed(s, input), input) == AddTrimmed(s, input)
  {
  }

  class KeywordSelectorView {
    const viewModel: PhotoLibraryViewModel

    /** The text of the custom keyword field. */
    var customKeyword: string

    constructor (viewModel: PhotoLibraryViewModel)
      ensures this.viewModel == viewModel && customKeyword == ""
    {
      this.viewModel := viewModel;
      customKeyword := "";
    }

    /** A predefined chip shows as selected when its raw value is staged. */
    function ChipSelected(keyword: PhotoKeyword): bool
      reads viewModel`editingKeywords
    {
      keyword.RawValue() in viewModel.editingKeywords
    }

    /** `toggleKeyword(_:)`: remove the keyword when staged, insert it
        otherwise. */
    method ToggleKeyword(keyword: string)
      modifies viewModel`editingKeywords
      ensures viewModel.editingKeywords == Toggled(old(viewModel.editingKeywords), keyword)
    {
      if keyword in viewModel.editingKeywords {
        viewModel.editingKeywords := viewModel.editingKeywords - {keyword};
      } else {
        viewModel.editingKeywords := viewModel.editingKeywords + {keyword};
      }
    }

    /** A chip's action: toggle its raw value. */
    method TapChip(keyword: PhotoKeyword)
      modifies viewModel`editingKeywords
      ensures ChipSelected(keyword) <==> !old(ChipSelected(keyword))
      ensures forall other :: other != keyword ==> (ChipSelected(other) <==> old(ChipSelected(other)))
    {
      ghost var before := viewModel.editingKeywords;
      ToggleKeyword(keyword.RawValue());
      forall other | other != keyword
        ensures ChipSelected(other) <==> other.RawValue() in before
      {
        ToggleFlipsOneChip(before, keyword, other);
      }
    }

    /** `addCustomKeyword()`: blank input (after trimming tabs and spaces)
        changes nothing; otherwise the trimmed text is staged and the field
        is cleared. */
    method AddCustomKeyword()
      modifies this`customKeyword, viewModel`editingKeywords
      ensures viewModel.editingKeywords == AddTrimmed(old(viewModel.editingKeywords), old(customKeyword))
      ensures customKeyword == if Text.Trim(old(customKeyword)) == [] then old(customKeyword) else ""
    {
      var trimmed := Text.Trim(customKeyword);
      if trimmed == [] {
        return;
      }
      viewModel.editingKeywords := viewModel.editingKeywords + {trimmed};
      customKeyword := "";
    }

    /** The Clear button: nothing staged. */
    method Clear()
      modifies viewModel`editingKeywords
      ensures viewModel.editingKeywords == {}
    {
      viewModel.editingKeywords := {};
    }

    /** The Load from Photo button: stage the keywords of the first
        selected photo's original record; without a selection or an
        original record nothing changes. */
    method LoadFromPhoto()
      modifies viewModel`editingKeywords
      ensures var selected := old(viewModel.SelectedPhotos());
        if selected != [] && old(selected[0].originalMetadata).Some? then
          forall w :: w in viewModel.editingKeywords <==> w in old(selected[0].originalMetadata).value.keywords
        else
          viewModel.editingKeywords == old(viewModel.editingKeywords)
    {
      var selected := viewModel.SelectedPhotos();
      if selected != [] && selected[0].originalMetadata.Some? {
        viewModel.editingKeywords := KeywordSet(selected[0].originalMetadata.value.keywords);
      }
    }

    /** A staged keyword's remove button: that keyword and no other
        leaves the set. */
    method RemoveKeyword(keyword: string)
      modifies viewModel`editingKeywords
      ensures viewModel.editingKeywords == old(viewModel.editingKeywords) - {keyword}
    {
      viewModel.editingKeywords := viewModel.editingKeywords - {keyword};
    }
  }
}
