/** `autocomplete_from_choices` (azoth_commands/autocomplete.py): the choice
 *  lists come from the database and are a parameter here. */
module Autocomplete {
  import opened Text

  /** The keys of the `choices` table. */
  const Fields: set<string> := {"card_element", "card_attributes", "card_type", "deck_type",
                                "deck_content_type", "ritual_type", "difficulty"}

  /** Case-insensitive substring match, as `input.lower() in c.lower()`. */
  predicate Matches(c: string, input: string)
  {
    Contains(Lower(c), Lower(input))
  }

  /** `[c for c in options if input.lower() in c.lower()]` */
  function Filter(options: seq<string>, input: string): seq<string>
  {
    if options == [] then []
    else (if Matches(options[0], input) then [options[0]] else []) + Filter(options[1..], input)
  }

  /** The filter keeps, in their original order, exactly the options that
   *  contain the input case-insensitively; a matching option is kept as often
   *  as it occurs and any other not at all, which together with the order
   *  determines the result. */
  lemma {:induction false} FilterSound(options: seq<string>, input: string)
    ensures IsSubsequence(Filter(options, input), options)
    ensures forall c :: c in Filter(options, input) <==> c in options && Matches(c, input)
    ensures |Filter(options, input)| <= |options|
    ensures forall c :: multiset(Filter(options, input))[c] == if Matches(c, input) then multiset(options)[c] else 0
  {
    FilterCounts(options, input);
    if options != [] {
      FilterSound(options[1..], input);
      var rest := Filter(options[1..], input);
      if Matches(options[0], input) {
        assert ([options[0]] + rest)[1..] == rest;
      } else {
        assert [] + rest == rest;
      }
      assert forall c :: c in options <==> c == options[0] || c in options[1..];
    }
  }

  lemma {:induction false} FilterCounts(options: seq<string>, input: string)
    ensures forall c :: multiset(Filter(options, input))[c] == if Matches(c, input) then multiset(options)[c] else 0
  {
    if options != [] {
      FilterCounts(options[1..], input);
      var rest := Filter(options[1..], input);
      assert options == [options[0]] + options[1..];
      assert multiset(options) == multiset{options[0]} + multiset(options[1..]);
      if Matches(options[0], input) {
        assert multiset(Filter(options, input)) == multiset{options[0]} + multiset(rest);
      } else {
        assert Filter(options, input) == rest;
      }
    }
  }

  /** The empty input is contained in every option, so it returns them all. */
  lemma {:induction false} FilterEmptyInput(options: seq<string>)
    ensures Filter(options, "") == options
  {
    if options != [] {
      assert Matches(options[0], "");
      FilterEmptyInput(options[1..]);
      assert [options[0]] + options[1..] == options;
    }
  }

  /** The filter does not depend on the case of the input. */
  lemma {:induction false} FilterIgnoresCase(options: seq<string>, input: string)
    ensures Filter(options, Lower(input)) == Filter(options, input)
  {
    LowerIdempotent(input);
    if options != [] {
      FilterIgnoresCase(options[1..], input);
    }
  }

  /** `autocomplete_from_choices(field, input)`: an unknown field gives no
   *  suggestions; a known one filters that field's choice list. */
  function AutocompleteFromChoices(field: string, input: string, choices: string -> seq<string>): (r: seq<string>)
    ensures field !in Fields ==> r == []
    ensures field in Fields ==> IsSubsequence(r, choices(field))
    ensures field in Fields ==> forall c :: c in r <==> c in choices(field) && Matches(c, input)
    ensures field in Fields ==> forall c ::
      multiset(r)[c] == if Matches(c, input) then multiset(choices(field))[c] else 0
    ensures field in Fields && input == "" ==> r == choices(field)
  {
    if field !in Fields then []
    else
      var options := choices(field);
      FilterSound(options, input);
      FilterEmptyInput(options);
      Filter(options, input)
  }
}
