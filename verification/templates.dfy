/** The code template picker (`client/src/components/TemplateModal.jsx`):
    the templates of a language are listed by name, narrowed by a search
    term, and choosing one hands its code to the editor. */
module Templates {
  import opened Wrappers
  import opened Strings
  import opened Seqs
  import opened Dict

  /** One template of `codeTemplates.js`. */
  datatype Template = Template(description: string, code: string)

  /** The search test: the name holds the term, letters compared without
      case. */
  predicate Matches(searchTerm: string, name: string) {
    Contains(Lower(name), Lower(searchTerm))
  }

  /** `filteredTemplates`: the template names matching the search term, in
      the templates' order. */
  function FilteredTemplates(templates: Dict<Template>, searchTerm: string): (names: seq<string>)
    ensures forall name :: name in names <==> name in templates.keys && Matches(searchTerm, name)
  {
    Filter(templates.keys, name => Matches(searchTerm, name))
  }

  /** The list keeps the templates' order and shows no name twice. */
  lemma FilteredKeepsOrder(templates: Dict<Template>, searchTerm: string)
    requires templates.Valid()
    ensures SubsequenceOf(FilteredTemplates(templates, searchTerm), templates.keys)
    ensures Distinct(FilteredTemplates(templates, searchTerm))
  {
    FilterSubsequence(templates.keys, name => Matches(searchTerm, name));
    FilterDistinct(templates.keys, name => Matches(searchTerm, name));
  }

  /** An empty search lists every template. */
  lemma EmptySearchListsAll(templates: Dict<Template>)
    ensures FilteredTemplates(templates, "") == templates.keys
  {
    forall name ensures Matches("", name) {
      assert OccursAt(Lower(name), Lower(""), 0);
    }
    FilterAll(templates.keys, name => Matches("", name));
  }

  lemma {:induction false} LowerIdempotent(s: string)
    ensures Lower(Lower(s)) == Lower(s)
  {
    assert forall k :: 0 <= k < |s| ==> LowerChar(LowerChar(s[k])) == LowerChar(s[k]);
  }

  /** The case of the search term does not matter. */
  lemma SearchIgnoresCase(templates: Dict<Template>, searchTerm: string)
    ensures FilteredTemplates(templates, searchTerm) == FilteredTemplates(templates, Lower(searchTerm))
  {
    LowerIdempotent(searchTerm);
    FilterSame(templates.keys, name => Matches(searchTerm, name), name => Matches(Lower(searchTerm), name));
  }

  /** `handleSelectTemplate(templateName)`: the code of that template,
      which is handed on before the modal closes. `None` stands for an
      unknown name: reading `.code` of `undefined` throws a `TypeError`,
      so the code is not handed on and the modal does not close. */
  function SelectTemplate(templates: Dict<Template>, templateName: string): (code: Option<string>)
    ensures code.Some? <==> templates.Has(templateName)
    ensures code.Some? ==> code.value == templates.vals[templateName].code
  {
    if templates.Has(templateName) then Some(templates.vals[templateName].code) else None
  }

  /** Every listed template can be chosen, and choosing it gives its own
      code. */
  lemma ListedAreSelectable(templates: Dict<Template>, searchTerm: string, name: string)
    requires templates.Valid() && name in FilteredTemplates(templates, searchTerm)
    ensures SelectTemplate(templates, name) == Some(templates.vals[name].code)
  {
  }
}
