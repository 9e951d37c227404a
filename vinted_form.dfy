/**
 * The choices the Vinted form filler (extension/src/content.js) makes among
 * the options the page offers. Option elements are abstracted by their text
 * content, in document order; an answer `Some(i)` means "click option i".
 * Clicks, events, waits and the status overlay are not modelled.
 */
module VintedForm {
  import opened Wrappers
  import opened Ascii
  import opened Search

  /** The Vinted condition used when the Depop condition has no entry in the map. */
  const DefaultCondition: string := "New with tags"

  /** `conditionMap`: Depop condition label to Vinted condition label. */
  const ConditionMap: map<string, string> := map[
    "Brand new" := "New with tags",
    "Like new" := "New without tags",
    "Excellent" := "Very good",
    "Good" := "Good",
    "Fair" := "Satisfactory"
  ]

  /** The five Vinted condition labels the filler can aim for. */
  const VintedConditions: set<string> :=
    {"New with tags", "New without tags", "Very good", "Good", "Satisfactory"}

  /** `conditionMap[data.condition] || "New with tags"`. */
  function TargetCondition(condition: string): (r: string)
    ensures r in VintedConditions
    ensures condition in ConditionMap ==> r == ConditionMap[condition]
    ensures r == DefaultCondition <==> condition !in ConditionMap || condition == "Brand new"
  {
    if condition in ConditionMap then ConditionMap[condition] else DefaultCondition
  }

  /** Distinct Depop conditions are sent to distinct Vinted conditions, and every
      Vinted condition is reached: the map is a bijection onto VintedConditions. */
  lemma ConditionMapIsBijective(a: string, b: string)
    requires a in ConditionMap && b in ConditionMap
    ensures ConditionMap[a] == ConditionMap[b] ==> a == b
    ensures ConditionMap.Values == VintedConditions
  {
    assert ConditionMap["Brand new"] == "New with tags";
    assert ConditionMap["Like new"] == "New without tags";
    assert ConditionMap["Excellent"] == "Very good";
    assert ConditionMap["Good"] == "Good";
    assert ConditionMap["Fair"] == "Satisfactory";
  }

  /** The size test: the trimmed, upper-cased option text is the target size itself,
      or starts with the target size followed by " /" (as in "L / 40"). */
  predicate SizeMatches(targetSize: string, option: string) {
    var text := ToUpper(Trim(option));
    text == targetSize || StartsWith(text, targetSize + " /")
  }

  /** The fallback test: the trimmed, lower-cased option text is "other". */
  predicate IsOther(option: string) {
    ToLower(Trim(option)) == "other"
  }

  /** The size option to click: the first one matching the upper-cased size, otherwise
      the first "other" option, otherwise none. */
  function ChooseSize(options: seq<string>, size: string): (r: Option<nat>)
    ensures r.Some? ==> r.value < |options|
    ensures (exists i :: 0 <= i < |options| && SizeMatches(ToUpper(size), options[i])) ==>
              && r.Some?
              && SizeMatches(ToUpper(size), options[r.value])
              && forall j :: 0 <= j < r.value ==> !SizeMatches(ToUpper(size), options[j])
    ensures (forall i :: 0 <= i < |options| ==> !SizeMatches(ToUpper(size), options[i])) ==>
              && (r.Some? ==> IsOther(options[r.value]) && forall j :: 0 <= j < r.value ==> !IsOther(options[j]))
              && (r.None? <==> forall j :: 0 <= j < |options| ==> !IsOther(options[j]))
  {
    var targetSize := ToUpper(size);
    match Find(options, option => SizeMatches(targetSize, option))
    case Some(i) => Some(i)
    case None => Find(options, IsOther)
  }

  /** The case of the listing's size does not matter: it is upper-cased before matching. */
  lemma ChooseSizeIgnoresCase(options: seq<string>, size: string)
    ensures ChooseSize(options, ToLower(size)) == ChooseSize(options, size)
  {
    ToUpperOfToLower(size);
  }

  /** The condition option to click: the first whose text contains the target condition. */
  function ChooseCondition(options: seq<string>, condition: string): (r: Option<nat>)
    ensures r.Some? ==> r.value < |options| && Contains(options[r.value], TargetCondition(condition))
    ensures r.Some? ==> forall j :: 0 <= j < r.value ==> !Contains(options[j], TargetCondition(condition))
    ensures r.None? <==> forall j :: 0 <= j < |options| ==> !Contains(options[j], TargetCondition(condition))
  {
    var target := TargetCondition(condition);
    Find(options, option => Contains(option, target))
  }

  /** The brand test: trimmed, lower-cased suggestion text equals the lower-cased brand. */
  predicate BrandMatches(brand: string, suggestion: string) {
    ToLower(Trim(suggestion)) == ToLower(brand)
  }

  /** The loop over the brand suggestions, with its `brandFound` flag and `break`. */
  method FindBrandSuggestion(suggestions: seq<string>, brand: string) returns (brandFound: bool, clicked: Option<nat>)
    ensures brandFound <==> exists i :: 0 <= i < |suggestions| && BrandMatches(brand, suggestions[i])
    ensures brandFound <==> clicked.Some?
    ensures clicked.Some? ==> clicked.value < |suggestions| && BrandMatches(brand, suggestions[clicked.value])
    ensures clicked.Some? ==> forall j :: 0 <= j < clicked.value ==> !BrandMatches(brand, suggestions[j])
  {
    brandFound := false;
    clicked := None;
    for i := 0 to |suggestions|
      invariant !brandFound && clicked.None?
      invariant forall j :: 0 <= j < i ==> !BrandMatches(brand, suggestions[j])
    {
      if BrandMatches(brand, suggestions[i]) {
        clicked := Some(i);
        brandFound := true;
        break;
      }
    }
  }

  /** Which brand element gets clicked. */
  datatype BrandChoice =
    | Suggested(index: nat)      // a suggestion matched
    | ByAriaLabel(index: nat)    // typed in, then the element labelled with the brand
    | CustomBrand                // typed in, then the "custom-select-brand" entry
    | NoBrand                    // typed in, nothing to click
    | SelectorRejected           // typed in, and `querySelector` threw on the aria-label selector

  /**
   * The brand step's choice: the first matching suggestion; when there is none,
   * the brand is typed in and `div[aria-label="<brand>"]` is queried. That query
   * throws when the brand makes the selector invalid (`selectorThrows`, since the
   * brand is inserted unescaped); otherwise it yields the first element whose
   * aria-label is the brand, else the custom-brand entry if present. `ariaLabels`
   * are the aria-labels of the page's div elements after typing, in document order.
   */
  function BrandChoiceFor(suggestions: seq<string>, brand: string, selectorThrows: bool,
                          ariaLabels: seq<string>, customSelectPresent: bool): (choice: BrandChoice)
    ensures choice.Suggested? <==> exists i :: 0 <= i < |suggestions| && BrandMatches(brand, suggestions[i])
    ensures choice.Suggested? ==>
              && choice.index < |suggestions| && BrandMatches(brand, suggestions[choice.index])
              && forall j :: 0 <= j < choice.index ==> !BrandMatches(brand, suggestions[j])
    ensures choice == SelectorRejected <==> !choice.Suggested? && selectorThrows
    ensures choice.ByAriaLabel? ==>
              && choice.index < |ariaLabels| && ariaLabels[choice.index] == brand
              && forall j :: 0 <= j < choice.index ==> ariaLabels[j] != brand
    ensures !choice.Suggested? && !selectorThrows ==> (choice.ByAriaLabel? <==> brand in ariaLabels)
    ensures choice == CustomBrand <==> !choice.Suggested? && !selectorThrows && brand !in ariaLabels && customSelectPresent
  {
    match Find(suggestions, suggestion => BrandMatches(brand, suggestion))
    case Some(i) => Suggested(i)
    case None =>
      if selectorThrows then SelectorRejected
      else match Find(ariaLabels, ariaLabel => ariaLabel == brand)
        case Some(i) => ByAriaLabel(i)
        case None => if customSelectPresent then CustomBrand else NoBrand
  }

  /** The brand step as the source runs it, with the suggestion loop of `FindBrandSuggestion`. */
  method SelectBrand(suggestions: seq<string>, brand: string, selectorThrows: bool,
                     ariaLabels: seq<string>, customSelectPresent: bool)
    returns (choice: BrandChoice)
    ensures choice == BrandChoiceFor(suggestions, brand, selectorThrows, ariaLabels, customSelectPresent)
  {
    var brandFound, clicked := FindBrandSuggestion(suggestions, brand);
    if brandFound {
      return Suggested(clicked.value);
    }
    if selectorThrows {
      return SelectorRejected;
    }
    match Find(ariaLabels, ariaLabel => ariaLabel == brand)
    case Some(i) =>
      choice := ByAriaLabel(i);
    case None =>
      choice := if customSelectPresent then CustomBrand else NoBrand;
  }

  function Min(a: nat, b: nat): nat { if a < b then a else b }

  /** The colour loop: click the first `min(n, 2)` suggested colours, in order. */
  method ClickColours(suggestedColours: seq<string>) returns (clicked: seq<string>)
    ensures |clicked| == Min(|suggestedColours|, 2)
    ensures clicked == suggestedColours[..|clicked|]
  {
    clicked := [];
    var i := 0;
    while i < Min(|suggestedColours|, 2)
      invariant i <= Min(|suggestedColours|, 2)
      invariant clicked == suggestedColours[..i]
    {
      clicked := clicked + [suggestedColours[i]];
      i := i + 1;
    }
  }

  /** The listing fields the dropdown steps read. */
  datatype ListingData = ListingData(brand: string, size: string, condition: string)

  /** What each dropdown step finds on the page. An input flag is false when waiting
      for that input timed out; the lists are the option texts in document order. */
  datatype DropdownPage = DropdownPage(
    brandInput: bool, brandSuggestions: seq<string>, brandSelectorThrows: bool,
    ariaLabels: seq<string>, customSelectPresent: bool,
    sizeInput: bool, sizeOptions: seq<string>,
    conditionInput: bool, conditionOptions: seq<string>,
    colourInput: bool, suggestedColours: seq<string>)

  /** The clicks the dropdown steps make; None where a step found nothing to click. */
  datatype Selections = Selections(brand: Option<BrandChoice>, size: Option<nat>, condition: Option<nat>, colours: seq<string>)

  /** The brand step threw, which ends `fillDropdowns` before its later steps. */
  predicate Aborted(s: Selections) {
    s.brand == Some(SelectorRejected)
  }

  /**
   * The brand, size, condition and colour steps of `fillDropdowns`. A step whose
   * input is missing is skipped; each step's choice depends only on its own options.
   * When the brand selector throws, the exception leaves `fillDropdowns` and no
   * later step runs.
   */
  method FillDropdowns(data: ListingData, page: DropdownPage) returns (s: Selections)
    ensures s.brand == if page.brandInput
                       then Some(BrandChoiceFor(page.brandSuggestions, data.brand, page.brandSelectorThrows,
                                                page.ariaLabels, page.customSelectPresent))
                       else None
    ensures s.size == if page.sizeInput && !Aborted(s) then ChooseSize(page.sizeOptions, data.size) else None
    ensures s.condition == if page.conditionInput && !Aborted(s) then ChooseCondition(page.conditionOptions, data.condition) else None
    ensures s.colours == if page.colourInput && !Aborted(s) then page.suggestedColours[..Min(|page.suggestedColours|, 2)] else []
  {
    s := Selections(None, None, None, []);
    if page.brandInput {
      var choice := SelectBrand(page.brandSuggestions, data.brand, page.brandSelectorThrows,
                                page.ariaLabels, page.customSelectPresent);
      s := s.(brand := Some(choice));
      if choice == SelectorRejected {
        return;
      }
    }
    if page.sizeInput {
      s := s.(size := ChooseSize(page.sizeOptions, data.size));
    }
    if page.conditionInput {
      s := s.(condition := ChooseCondition(page.conditionOptions, data.condition));
    }
    if page.colourInput {
      var clicked := ClickColours(page.suggestedColours);
      s := s.(colours := clicked);
    }
  }

  /** A text input element whose `value` the filler overwrites. */
  class TextInput {
    var value: string

    constructor (initial: string)
      ensures value == initial
    {
      value := initial;
    }
  }

  /**
   * `slowTypeInputValue`: clear the input, then append the characters one by one,
   * dispatching an input event after each. `typed` records the input's value at
   * each of those events. A missing input (the wait timed out) is left alone.
   */
  method SlowTypeInputValue(input: TextInput?, value: string) returns (typed: seq<string>)
    modifies input
    ensures input != null ==> input.value == value
    ensures input != null ==> |typed| == |value| && forall k :: 0 <= k < |typed| ==> typed[k] == value[..k + 1]
    ensures input == null ==> typed == []
  {
    typed := [];
    if input != null {
      input.value := "";
      for k := 0 to |value|
        invariant input.value == value[..k]
        invariant |typed| == k && forall j :: 0 <= j < k ==> typed[j] == value[..j + 1]
      {
        input.value := input.value + [value[k]];
        typed := typed + [input.value];
      }
    }
  }
}
