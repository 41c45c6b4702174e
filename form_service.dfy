/**
 * The list and string logic of `FormService`: normalising SOAP replies to
 * lists, the picker labels `"<documentId> - <documentDescription>"` and their
 * parsing, the export picker, the form name derived from a local path, the
 * password re-confirmation loop, the principal-attachment flag and the status
 * check on the server's reply. Server replies and user choices are inputs.
 */
module FormService {
  import opened Wrappers
  import opened Text
  import opened Models

  /** A form as the card-index service lists it (`DocumentDTO`). */
  datatype Form = Form(documentId: nat, documentDescription: string, datasetName: string, version: int)

  /**
   * The `item` field of a SOAP reply: missing, a single bare record (the
   * service's shape when there is exactly one), or a list.
   */
  datatype Item<T> = Absent | Bare(value: T) | Listed(values: seq<T>)

  // ---------------------------------------------------------------------
  // Normalising replies to lists
  // ---------------------------------------------------------------------

  /**
   * The normalisation of `getFileNames` and `getCustomizationEvents` as
   * written: whatever is not an array is wrapped, so a missing item becomes
   * a one-element list holding `undefined` (`None`).
   */
  function ToListAsWritten<T>(item: Item<T>): (r: seq<Option<T>>)
    ensures !item.Listed? ==> |r| == 1
    ensures item.Bare? ==> r == [Some(item.value)]
    ensures item.Absent? ==> r[0].None?
    ensures item.Listed? ==> |r| == |item.values|
    ensures item.Listed? ==> forall i :: 0 <= i < |r| ==> r[i] == Some(item.values[i])
  {
    match item
    case Absent => [None]
    case Bare(x) => [Some(x)]
    case Listed(xs) => seq(|xs|, i requires 0 <= i < |xs| => Some(xs[i]))
  }

  /** A reply without any item (a form with no custom events) yields one `undefined` entry. */
  lemma AbsentItemYieldsUndefined<T>()
    ensures ToListAsWritten<T>(Absent) == [None]
  {
  }

  /**
   * The normalisation the services need: a bare item becomes a one-element
   * list, a list is kept as it is, and a missing item becomes the empty list.
   */
  function ToList<T>(item: Item<T>): (r: seq<T>)
    ensures item.Absent? <==> r == [] && !item.Listed?
    ensures item.Bare? ==> r == [item.value]
    ensures item.Listed? ==> r == item.values
  {
    match item
    case Absent => []
    case Bare(x) => [x]
    case Listed(xs) => xs
  }

  /** Wherever the reply holds an item, the corrected normalisation agrees with the written one. */
  lemma ToListAgreesWhenPresent<T>(item: Item<T>)
    requires !item.Absent?
    ensures |ToListAsWritten(item)| == |ToList(item)|
    ensures forall i :: 0 <= i < |ToList(item)| ==> ToListAsWritten(item)[i] == Some(ToList(item)[i])
  {
  }

  /** Normalising an already normalised reply changes nothing. */
  lemma ToListIdempotent<T>(item: Item<T>)
    ensures ToList(Listed(ToList(item))) == ToList(item)
  {
  }

  /**
   * `getForms` as written: `item || []`. A missing item becomes `[]` and a
   * list is kept, but a bare item is passed on as it is, which is not a list
   * (`None` here): the picker's `forms.map` cannot run on it.
   */
  function FormsAsWritten(item: Item<Form>): (r: Option<seq<Form>>)
    ensures r.None? <==> item.Bare?
    ensures item.Absent? ==> r == Some([])
    ensures item.Listed? ==> r == Some(item.values)
  {
    match item
    case Absent => Some([])
    case Bare(_) => None
    case Listed(xs) => Some(xs)
  }

  /** A server with exactly one form: `getForms` as written yields no list, `ToList` yields that form. */
  lemma SingleFormIsNotListed(f: Form)
    ensures FormsAsWritten(Bare(f)).None?
    ensures ToList(Bare(f)) == [f]
  {
  }

  /** `getForms` as corrected agrees with the written one wherever the written one yields a list. */
  lemma FormsAgreeWhenListed(item: Item<Form>)
    requires FormsAsWritten(item).Some?
    ensures FormsAsWritten(item).value == ToList(item)
  {
  }

  // ---------------------------------------------------------------------
  // Picker labels and their parsing
  // ---------------------------------------------------------------------

  const Separator: string := " - "

  /** One quick-pick entry: a label and an optional detail line. */
  datatype PickItem = PickItem(text: string, detail: Option<string>)

  /** The picker label `documentId + ' - ' + documentDescription`. */
  function Label(f: Form): (s: string)
    ensures StartsWith(s, NatToString(f.documentId) + Separator) && IsDigit(s[0])
  {
    NatToString(f.documentId) + Separator + f.documentDescription
  }

  function FormItem(f: Form): PickItem {
    PickItem(Label(f), Some(f.datasetName))
  }

  /** The quick-pick entries of `getOptionSelected`: one per form, in server order. */
  function PickerItems(forms: seq<Form>): (items: seq<PickItem>)
    ensures |items| == |forms|
    ensures forall i :: 0 <= i < |forms| ==> items[i] == FormItem(forms[i])
  {
    if forms == [] then [] else [FormItem(forms[0])] + PickerItems(forms[1..])
  }

  /**
   * `label.substring(0, label.indexOf(" - "))`: the text before the first
   * separator; when there is none, `substring(0, -1)` yields the empty string.
   */
  function ParseId(text: string): (id: string)
    ensures IndexOf(text, Separator) == -1 ==> id == ""
    ensures IndexOf(text, Separator) != -1 ==> id == text[..IndexOf(text, Separator)]
  {
    var end := IndexOf(text, Separator);
    if end == -1 then "" else text[..end]
  }

  /** Parsing a form's label gives back the text of its id, whatever its description holds. */
  lemma {:induction false} ParseLabel(f: Form)
    ensures ParseId(Label(f)) == NatToString(f.documentId)
  {
    var d := NatToString(f.documentId);
    var s := Label(f);
    assert OccursAt(s, Separator, |d|) by {
      assert s[|d|..|d| + 3] == Separator;
    }
    forall i | 0 <= i < |d|
      ensures !OccursAt(s, Separator, i)
    {
      assert s[i] == d[i];
    }
    var r := IndexOf(s, Separator);
    assert r == |d|;
    assert s[..r] == d;
  }

  /** No two forms share an id. */
  predicate UniqueIds(forms: seq<Form>) {
    forall i, j :: 0 <= i < j < |forms| ==> forms[i].documentId != forms[j].documentId
  }

  /** Some listed form has an id that renders as `id`. */
  predicate HasFormWithId(forms: seq<Form>, id: string) {
    exists f :: f in forms && NatToString(f.documentId) == id
  }

  /** `f` is listed at an index before which no form's id renders as `id`. */
  predicate IsFirstWithId(forms: seq<Form>, id: string, f: Form) {
    exists k :: 0 <= k < |forms| && forms[k] == f && forall j :: 0 <= j < k ==> NatToString(forms[j].documentId) != id
  }

  /** Index of the first form whose id renders as `id`, or -1. */
  function FirstIndexWithId(forms: seq<Form>, id: string): (k: int)
    ensures -1 <= k < |forms|
    ensures k >= 0 ==> NatToString(forms[k].documentId) == id
    ensures forall j :: 0 <= j < |forms| && (k == -1 || j < k) ==> NatToString(forms[j].documentId) != id
  {
    if forms == [] then -1
    else if NatToString(forms[0].documentId) == id then 0
    else
      var k := FirstIndexWithId(forms[1..], id);
      if k == -1 then -1 else k + 1
  }

  /** `forms.find(form => form.documentId.toString() === id)`. */
  function FindById(forms: seq<Form>, id: string): (r: Option<Form>)
    ensures r.Some? ==> r.value in forms && NatToString(r.value.documentId) == id
    ensures r.None? <==> forall f :: f in forms ==> NatToString(f.documentId) != id
    ensures r.Some? ==> IsFirstWithId(forms, id, r.value)
  {
    var k := FirstIndexWithId(forms, id);
    if k == -1 then None else Some(forms[k])
  }

  /** Label round trip: the form whose label was picked is found again when ids are unique. */
  lemma {:induction false} LabelRoundTrip(forms: seq<Form>, i: nat)
    requires UniqueIds(forms)
    requires i < |forms|
    ensures FindById(forms, ParseId(Label(forms[i]))) == Some(forms[i])
  {
    ParseLabel(forms[i]);
    var id := NatToString(forms[i].documentId);
    var k := FirstIndexWithId(forms, id);
    assert k != -1;
    NatToStringInjective(forms[k].documentId, forms[i].documentId);
    assert k == i;
  }

  /**
   * `getOptionSelected`: `None` when the pick is dismissed or its label names
   * no listed form, otherwise the first form with the parsed id.
   */
  function SelectForm(forms: seq<Form>, choice: Option<string>): (r: Option<Form>)
    ensures choice.None? ==> r.None?
    ensures r.Some? ==> r.value in forms && NatToString(r.value.documentId) == ParseId(choice.value)
    ensures choice.Some? && HasFormWithId(forms, ParseId(choice.value)) ==> r.Some?
    ensures r.Some? ==> IsFirstWithId(forms, ParseId(choice.value), r.value)
  {
    match choice
    case None => None
    case Some(picked) => FindById(forms, ParseId(picked))
  }

  /** Picking the i-th entry of the single-select picker yields the i-th form. */
  lemma SelectPickedForm(forms: seq<Form>, i: nat)
    requires UniqueIds(forms)
    requires i < |forms|
    ensures SelectForm(forms, Some(PickerItems(forms)[i].text)) == Some(forms[i])
  {
    LabelRoundTrip(forms, i);
  }

  /**
   * `getOptionsSelected`: `None` when the picker is dismissed; otherwise one
   * lookup per picked label, in the order of the picks.
   */
  function SelectForms(forms: seq<Form>, choice: Option<seq<string>>): (r: Option<seq<Option<Form>>>)
    ensures choice.None? <==> r.None?
    ensures r.Some? ==> |r.value| == |choice.value|
    ensures r.Some? ==> forall k :: 0 <= k < |r.value| ==> r.value[k] == SelectForm(forms, Some(choice.value[k]))
  {
    match choice
    case None => None
    case Some(labels) => Some(seq(|labels|, k requires 0 <= k < |labels| => FindById(forms, ParseId(labels[k]))))
  }

  /**
   * Picking entries of the multi-select picker yields, in pick order, exactly
   * the picked forms.
   */
  lemma SelectPickedForms(forms: seq<Form>, picks: seq<nat>)
    requires UniqueIds(forms)
    requires forall k :: 0 <= k < |picks| ==> picks[k] < |forms|
    ensures var labels := seq(|picks|, k requires 0 <= k < |picks| => PickerItems(forms)[picks[k]].text);
            var r := SelectForms(forms, Some(labels));
            r.Some? && |r.value| == |picks| &&
            forall k :: 0 <= k < |picks| ==> r.value[k] == Some(forms[picks[k]])
  {
    forall k | 0 <= k < |picks|
      ensures FindById(forms, ParseId(PickerItems(forms)[picks[k]].text)) == Some(forms[picks[k]])
    {
      LabelRoundTrip(forms, picks[k]);
    }
  }

  // ---------------------------------------------------------------------
  // The export picker (`getExportFormSelected`)
  // ---------------------------------------------------------------------

  const NewFormLabel: string := "Novo Formulário"
  const NewFormItem: PickItem := PickItem(NewFormLabel, None)

  /**
   * The loose comparison `name == form.documentId` between a string and a
   * number: the string converts to a number, the empty string to 0.
   */
  predicate NameEqualsId(name: string, id: nat) {
    if name == "" then id == 0 else AllDigits(name) && DigitsValue(name) == id
  }

  /** `formNameOrId == form.documentId || formNameOrId === form.documentDescription`. */
  predicate MatchesForm(key: string, f: Form) {
    NameEqualsId(key, f.documentId) || key == f.documentDescription
  }

  /** Index of the last form that matches `key`, or -1. */
  function LastMatchIndex(forms: seq<Form>, key: string): (k: int)
    ensures -1 <= k < |forms|
    ensures k >= 0 ==> MatchesForm(key, forms[k])
    ensures forall j :: k < j < |forms| ==> !MatchesForm(key, forms[j])
  {
    if forms == [] then -1
    else if MatchesForm(key, forms[|forms| - 1]) then |forms| - 1
    else LastMatchIndex(forms[..|forms| - 1], key)
  }

  /** The entries of the forms that do not match `key`, in server order. */
  function Others(forms: seq<Form>, key: string): seq<PickItem>
  {
    if forms == [] then []
    else
      var last := forms[|forms| - 1];
      Others(forms[..|forms| - 1], key) + (if MatchesForm(key, last) then [] else [FormItem(last)])
  }

  /** How many forms match `key`. */
  function MatchCount(forms: seq<Form>, key: string): nat
  {
    if forms == [] then 0
    else MatchCount(forms[..|forms| - 1], key) + (if MatchesForm(key, forms[|forms| - 1]) then 1 else 0)
  }

  /**
   * The export picker: the entry of the (last) matching form if there is one,
   * then "Novo Formulário", then the other forms in server order.
   */
  function ExportPicker(forms: seq<Form>, key: string): seq<PickItem>
  {
    var k := LastMatchIndex(forms, key);
    (if k == -1 then [] else [FormItem(forms[k])]) + [NewFormItem] + Others(forms, key)
  }

  /**
   * The loop of `getExportFormSelected`: non-matching forms are pushed, a
   * matching one replaces `selected`; then "Novo Formulário" and `selected`
   * are put in front.
   */
  method BuildExportPicker(forms: seq<Form>, key: string) returns (items: seq<PickItem>)
    ensures items == ExportPicker(forms, key)
  {
    var others: seq<PickItem> := [];
    var selected: Option<PickItem> := None;
    var i := 0;
    while i < |forms|
      invariant 0 <= i <= |forms|
      invariant others == Others(forms[..i], key)
      invariant var k := LastMatchIndex(forms[..i], key);
                selected == if k == -1 then None else Some(FormItem(forms[k]))
    {
      var f := forms[i];
      assert forms[..i + 1][..i] == forms[..i];
      if MatchesForm(key, f) {
        selected := Some(FormItem(f));
      } else {
        others := others + [FormItem(f)];
      }
      i := i + 1;
    }
    assert forms[..i] == forms;
    items := [NewFormItem] + others;
    if selected.Some? {
      items := [selected.value] + items;
    }
  }

  /** The other entries split over a concatenation: server order is kept. */
  lemma {:induction false} OthersAppend(a: seq<Form>, b: seq<Form>, key: string)
    ensures Others(a + b, key) == Others(a, key) + Others(b, key)
    decreases |b|
  {
    if b == [] {
      assert a + b == a;
    } else {
      var b' := b[..|b| - 1];
      assert (a + b)[..|a + b| - 1] == a + b';
      OthersAppend(a, b', key);
    }
  }

  /** Every form either matches or contributes one entry. */
  lemma {:induction false} OthersLength(forms: seq<Form>, key: string)
    ensures |Others(forms, key)| + MatchCount(forms, key) == |forms|
  {
    if forms != [] {
      OthersLength(forms[..|forms| - 1], key);
    }
  }

  /** An entry is among the others exactly when it is the entry of a non-matching form. */
  lemma {:induction false} OthersMembers(forms: seq<Form>, key: string, item: PickItem)
    ensures item in Others(forms, key) <==> exists j :: 0 <= j < |forms| && !MatchesForm(key, forms[j]) && item == FormItem(forms[j])
  {
    if forms != [] {
      var init := forms[..|forms| - 1];
      OthersMembers(init, key, item);
      if exists j :: 0 <= j < |forms| && !MatchesForm(key, forms[j]) && item == FormItem(forms[j]) {
        var j :| 0 <= j < |forms| && !MatchesForm(key, forms[j]) && item == FormItem(forms[j]);
        if j < |forms| - 1 {
          assert init[j] == forms[j];
        }
      }
      if item in Others(init, key) {
        var j :| 0 <= j < |init| && !MatchesForm(key, init[j]) && item == FormItem(init[j]);
        assert forms[j] == init[j];
      }
    }
  }

  /** A form's label starts with a digit, so it is never "Novo Formulário". */
  lemma LabelIsNotNewFormLabel(f: Form)
    ensures Label(f) != NewFormLabel
  {
    var d := NatToString(f.documentId);
    assert Label(f)[0] == d[0];
    assert IsDigit(d[0]);
    assert NewFormLabel[0] == 'N';
  }

  /**
   * The picker's length: one more than the number of forms when none
   * matches, otherwise the match, "Novo Formulário" and the non-matching ones.
   */
  lemma ExportPickerLength(forms: seq<Form>, key: string)
    ensures MatchCount(forms, key) == 0 ==> |ExportPicker(forms, key)| == |forms| + 1
    ensures MatchCount(forms, key) > 0 ==> |ExportPicker(forms, key)| == 2 + (|forms| - MatchCount(forms, key))
  {
    OthersLength(forms, key);
    var k := LastMatchIndex(forms, key);
    if k == -1 {
      MatchCountZero(forms, key);
    } else {
      MatchCountPositive(forms, key, k);
    }
  }

  lemma {:induction false} MatchCountZero(forms: seq<Form>, key: string)
    requires forall j :: 0 <= j < |forms| ==> !MatchesForm(key, forms[j])
    ensures MatchCount(forms, key) == 0
  {
    if forms != [] {
      MatchCountZero(forms[..|forms| - 1], key);
    }
  }

  lemma {:induction false} MatchCountPositive(forms: seq<Form>, key: string, k: nat)
    requires k < |forms| && MatchesForm(key, forms[k])
    ensures MatchCount(forms, key) > 0
  {
    if k < |forms| - 1 {
      MatchCountPositive(forms[..|forms| - 1], key, k);
    }
  }

  /**
   * The picker's order: the last matching form's entry first when one
   * matches, "Novo Formulário" next (or first), then the entries of the
   * non-matching forms in server order, none of them labelled "Novo Formulário".
   */
  lemma ExportPickerOrder(forms: seq<Form>, key: string)
    ensures var p := ExportPicker(forms, key);
            var k := LastMatchIndex(forms, key);
            var n := if k == -1 then 0 else 1;
            (k != -1 ==> p[0] == FormItem(forms[k])) &&
            p[n] == NewFormItem &&
            p[n + 1..] == Others(forms, key) &&
            forall j :: n < j < |p| ==> p[j].text != NewFormLabel
  {
    var p := ExportPicker(forms, key);
    var k := LastMatchIndex(forms, key);
    var n := if k == -1 then 0 else 1;
    assert p[n + 1..] == Others(forms, key);
    forall j | n < j < |p|
      ensures p[j].text != NewFormLabel
    {
      assert p[j] == Others(forms, key)[j - n - 1];
      OthersMembers(forms, key, p[j]);
      var i :| 0 <= i < |forms| && !MatchesForm(key, forms[i]) && p[j] == FormItem(forms[i]);
      LabelIsNotNewFormLabel(forms[i]);
    }
  }

  /** What the user chose to export to: a new form, or an existing one. */
  datatype Target = NewForm | Existing(form: Form)

  /**
   * The answer of `getExportFormSelected`: `None` when the picker is
   * dismissed or the label names no listed form, `NewForm` for
   * "Novo Formulário", otherwise the first form with the parsed id.
   */
  function ResolveExportChoice(forms: seq<Form>, choice: Option<string>): (r: Option<Target>)
    ensures choice.None? ==> r.None?
    ensures choice == Some(NewFormLabel) ==> r == Some(NewForm)
    ensures r.Some? && r.value.Existing? ==> r.value.form in forms && choice.value != NewFormLabel
    ensures choice.Some? && choice.value != NewFormLabel ==>
              r.None? || (r.value.Existing? && NatToString(r.value.form.documentId) == ParseId(choice.value))
    ensures choice.Some? && HasFormWithId(forms, ParseId(choice.value)) ==> r.Some?
    ensures r.Some? && r.value.Existing? ==> IsFirstWithId(forms, ParseId(choice.value), r.value.form)
  {
    match choice
    case None => None
    case Some(picked) =>
      if picked == NewFormLabel then Some(NewForm)
      else match FindById(forms, ParseId(picked))
        case None => None
        case Some(f) => Some(Existing(f))
  }

  /**
   * Every entry of the export picker resolves to what it shows: the
   * "Novo Formulário" entry to a new form, a form's entry to that form, when
   * ids are unique.
   */
  lemma ExportChoiceRoundTrip(forms: seq<Form>, key: string, i: nat)
    requires UniqueIds(forms)
    requires i < |ExportPicker(forms, key)|
    ensures var item := ExportPicker(forms, key)[i];
            var r := ResolveExportChoice(forms, Some(item.text));
            r.Some? && (r.value.NewForm? <==> item == NewFormItem) &&
            (r.value.Existing? ==> FormItem(r.value.form) == item)
  {
    var p := ExportPicker(forms, key);
    var k := LastMatchIndex(forms, key);
    var n := if k == -1 then 0 else 1;
    ExportPickerOrder(forms, key);
    var item := p[i];
    var j: nat;
    if i == n {
      return;
    } else if i < n {
      j := k;
    } else {
      assert item in Others(forms, key) by { assert item == p[n + 1..][i - n - 1]; }
      OthersMembers(forms, key, item);
      j :| 0 <= j < |forms| && !MatchesForm(key, forms[j]) && item == FormItem(forms[j]);
    }
    LabelIsNotNewFormLabel(forms[j]);
    LabelRoundTrip(forms, j);
  }

  // ---------------------------------------------------------------------
  // The form name derived from a local path (FormService.ts:295-298)
  // ---------------------------------------------------------------------

  const FormsSegment: string := "/forms/"

  /** The capture group of `\/forms\/([^/]+)` can start at index `j` of `path`. */
  predicate SegmentStartsAt(path: string, j: int) {
    7 <= j < |path| && path[j - 7..j] == FormsSegment && path[j] != '/'
  }

  /** The largest capture start below `n`, or -1. */
  function LastSegmentBelow(path: string, n: nat): (j: int)
    requires n <= |path|
    ensures -1 <= j < n
    ensures j >= 0 ==> SegmentStartsAt(path, j)
    ensures forall i :: j < i < n ==> !SegmentStartsAt(path, i)
    decreases n
  {
    if n == 0 then -1
    else if SegmentStartsAt(path, n - 1) then n - 1
    else LastSegmentBelow(path, n - 1)
  }

  /** The length of the run of non-slash characters at the start of `s`. */
  function NonSlashRun(s: string): (n: nat)
    ensures n <= |s|
    ensures forall i :: 0 <= i < n ==> s[i] != '/'
    ensures n == |s| || s[n] == '/'
  {
    if s == [] || s[0] == '/' then 0 else 1 + NonSlashRun(s[1..])
  }

  /**
   * `name` is what the greedy match of `.*\/forms\/([^/]+).*` captures when
   * the group starts at `j`: `j` is the last possible start, and `name` is
   * the whole run of non-slash characters there.
   */
  predicate IsFolderCapture(path: string, j: int, name: string) {
    SegmentStartsAt(path, j) &&
    (forall i :: j < i < |path| ==> !SegmentStartsAt(path, i)) &&
    j + |name| <= |path| && path[j..j + |name|] == name &&
    name != "" && '/' !in name &&
    (j + |name| == |path| || path[j + |name|] == '/')
  }

  /**
   * `path.replace` with the pattern `.*\/forms\/([^/]+).*` and `"$1"`: the
   * folder after the last `/forms/` that is followed by a non-slash
   * character; a path without one is returned unchanged.
   */
  function FolderName(path: string): (name: string)
    ensures (forall j :: !SegmentStartsAt(path, j)) ==> name == path
    ensures (exists j :: SegmentStartsAt(path, j)) ==> exists j :: IsFolderCapture(path, j, name)
  {
    var j := LastSegmentBelow(path, |path|);
    if j == -1 then path
    else
      var name := path[j..j + NonSlashRun(path[j..])];
      assert IsFolderCapture(path, j, name) by {
        assert name[0] == path[j];
      }
      name
  }

  /** `name` reads `<digits> - <word characters>`, the digits being its first `d` characters. */
  predicate HasIdPrefix(name: string, d: nat) {
    0 < d && d + 3 < |name| && AllDigits(name[..d]) && name[d..d + 3] == Separator && AllWordChars(name[d + 3..])
  }

  /** The length of the run of digits at the start of `s`. */
  function DigitRun(s: string): (n: nat)
    ensures n <= |s|
    ensures forall i :: 0 <= i < n ==> IsDigit(s[i])
    ensures n == |s| || !IsDigit(s[n])
  {
    if s == [] || !IsDigit(s[0]) then 0 else 1 + DigitRun(s[1..])
  }

  /**
   * `name.replace(/^(?:\d+ - )?(\w+)$/, "$1")`: drops a leading
   * `"<digits> - "` when the rest is all word characters.
   */
  function StripIdPrefix(name: string): (r: string)
    ensures |r| <= |name| && name[|name| - |r|..] == r
  {
    var d := DigitRun(name);
    if HasIdPrefix(name, d) then name[d + 3..] else name
  }

  /**
   * The prefix is dropped exactly when the name has the shape
   * `<digits> - <word characters>`; any other name is kept as it is.
   */
  lemma StripIdPrefixSpec(name: string)
    ensures forall d :: HasIdPrefix(name, d) ==> StripIdPrefix(name) == name[d + 3..]
    ensures (forall d :: !HasIdPrefix(name, d)) ==> StripIdPrefix(name) == name
  {
    forall d: nat | HasIdPrefix(name, d)
      ensures DigitRun(name) == d
    {
      assert name[d] == ' ' by { assert name[d..d + 3][0] == name[d]; }
      assert forall i :: 0 <= i < d ==> name[..d][i] == name[i];
    }
  }

  /** A folder named `<id> - <name>`, the layout the Eclipse plugin writes, is exported under `<name>`. */
  lemma ImportedFolderNameStripped(id: nat, w: string)
    requires w != "" && AllWordChars(w)
    ensures StripIdPrefix(NatToString(id) + Separator + w) == w
  {
    var digits := NatToString(id);
    var name := digits + Separator + w;
    var d := |digits|;
    assert name[..d] == digits;
    assert name[d..d + 3] == Separator;
    assert name[d + 3..] == w;
    assert HasIdPrefix(name, d);
    StripIdPrefixSpec(name);
  }

  /** Stripping twice is stripping once. */
  lemma StripIdPrefixIdempotent(name: string)
    ensures StripIdPrefix(StripIdPrefix(name)) == StripIdPrefix(name)
  {
    var d := DigitRun(name);
    if HasIdPrefix(name, d) {
      // What is left is all word characters, so it holds no `" - "` and has no prefix of its own.
      var s := name[d + 3..];
      forall e: nat | e + 3 < |s|
        ensures !HasIdPrefix(s, e)
      {
        assert IsWordChar(s[e]);
        assert s[e..e + 3][0] == s[e];
      }
      StripIdPrefixSpec(s);
    } else {
      StripIdPrefixSpec(name);
    }
  }

  /** The form name of `export`: the folder name with any imported id prefix dropped. */
  function FormName(path: string): string {
    StripIdPrefix(FolderName(path))
  }

  /** The capture is unique: a capture at `j` is what `FolderName` returns. */
  lemma FolderNameOfCapture(path: string, j: int, name: string)
    requires IsFolderCapture(path, j, name)
    ensures FolderName(path) == name
  {
    var r := FolderName(path);
    var k :| IsFolderCapture(path, k, r);
    assert k == j;
    var m := if |r| < |name| then |r| else |name|;
    assert r[..m] == path[j..j + m] == name[..m];
  }

  /** The folder `<id> - <w>` holds no slash. */
  lemma ImportedFolderHasNoSlash(id: nat, w: string)
    requires AllWordChars(w)
    ensures '/' !in NatToString(id) + Separator + w
  {
    var digits := NatToString(id);
    var folder := digits + Separator + w;
    forall i | 0 <= i < |folder|
      ensures folder[i] != '/'
    {
      if i < |digits| {
        assert folder[i] == digits[i];
      } else if i >= |digits| + 3 {
        assert folder[i] == w[i - |digits| - 3];
      }
    }
  }

  /**
   * A file under a folder named `<id> - <w>` below `/forms/` is exported under
   * the form name `w`, when no later `/forms/` segment follows in its path.
   */
  lemma FormNameOfImportedFolder(dir: string, id: nat, w: string, file: string)
    requires w != "" && AllWordChars(w)
    requires var path := dir + FormsSegment + NatToString(id) + Separator + w + "/" + file;
             forall j :: |dir| + 7 < j < |path| ==> !SegmentStartsAt(path, j)
    ensures FormName(dir + FormsSegment + NatToString(id) + Separator + w + "/" + file) == w
  {
    var folder := NatToString(id) + Separator + w;
    var path := dir + FormsSegment + NatToString(id) + Separator + w + "/" + file;
    var j0 := |dir| + 7;
    assert path == (dir + FormsSegment) + (folder + "/" + file);
    assert path[j0 - 7..j0] == FormsSegment;
    assert path[j0..j0 + |folder|] == folder;
    assert path[j0 + |folder|] == '/';
    ImportedFolderHasNoSlash(id, w);
    assert path[j0] == folder[0];
    assert IsFolderCapture(path, j0, folder);
    FolderNameOfCapture(path, j0, folder);
    ImportedFolderNameStripped(id, w);
  }

  // ---------------------------------------------------------------------
  // The password re-confirmation loop (FormService.ts:275-292)
  // ---------------------------------------------------------------------

  /** What a password prompt yields: `showInputBox(..) || ""`, so a dismissed prompt reads as empty. */
  function Answer(entry: Option<string>): (r: string)
    ensures r == "" <==> entry.None? || entry == Some("")
  {
    match entry
    case None => ""
    case Some(text) => text
  }

  /** Every answer in `entries` is non-empty and wrong, so each one only repeats the prompt. */
  predicate AllWrong(password: string, entries: seq<Option<string>>) {
    forall i :: 0 <= i < |entries| ==> Answer(entries[i]) != "" && Answer(entries[i]) != password
  }

  /**
   * How the loop ends on a script of answers: the export passes at answer
   * `attempt`, is cancelled at answer `attempt`, or is still prompting when
   * the answers run out. `attempt` is also the number of warnings shown.
   */
  datatype Gate = Passed(attempt: nat) | Cancelled(attempt: nat) | Unanswered

  /**
   * The three-way decision of the loop: an empty answer cancels, a wrong one
   * repeats the prompt, the stored password passes.
   */
  function PasswordGate(password: string, entries: seq<Option<string>>): (g: Gate)
    ensures g.Passed? ==> g.attempt < |entries| && password != "" &&
                          Answer(entries[g.attempt]) == password && AllWrong(password, entries[..g.attempt])
    ensures g.Cancelled? ==> g.attempt < |entries| &&
                             Answer(entries[g.attempt]) == "" && AllWrong(password, entries[..g.attempt])
    ensures g.Unanswered? ==> AllWrong(password, entries)
  {
    if entries == [] then Unanswered
    else if Answer(entries[0]) == "" then Cancelled(0)
    else if Answer(entries[0]) == password then Passed(0)
    else
      var rest := PasswordGate(password, entries[1..]);
      match rest
      case Passed(a) => AllWrongCons(password, entries, a); Passed(a + 1)
      case Cancelled(a) => AllWrongCons(password, entries, a); Cancelled(a + 1)
      case Unanswered => AllWrongCons(password, entries, |entries| - 1); Unanswered
  }

  /** A wrong first answer followed by `n` wrong answers makes `n + 1` wrong answers. */
  lemma AllWrongCons(password: string, entries: seq<Option<string>>, n: nat)
    requires n < |entries|
    requires Answer(entries[0]) != "" && Answer(entries[0]) != password
    requires AllWrong(password, entries[1..][..n])
    ensures AllWrong(password, entries[..n + 1])
  {
    var prefix, tail := entries[..n + 1], entries[1..][..n];
    forall k | 1 <= k <= n
      ensures Answer(prefix[k]) != "" && Answer(prefix[k]) != password
    {
      assert prefix[k] == tail[k - 1];
    }
  }

  /** The loop decides at the first answer that is empty or right, and only there. */
  lemma {:induction false} PasswordGateAt(password: string, entries: seq<Option<string>>, i: nat)
    requires i < |entries| && AllWrong(password, entries[..i])
    ensures Answer(entries[i]) == "" ==> PasswordGate(password, entries) == Cancelled(i)
    ensures Answer(entries[i]) != "" && Answer(entries[i]) == password ==> PasswordGate(password, entries) == Passed(i)
  {
    if i > 0 {
      assert entries[..i][0] == entries[0];
      var prefix, tail := entries[..i], entries[1..][..i - 1];
      forall k | 0 <= k < i - 1
        ensures Answer(tail[k]) != "" && Answer(tail[k]) != password
      {
        assert tail[k] == prefix[k + 1];
      }
      PasswordGateAt(password, entries[1..], i - 1);
      assert entries[1..][i - 1] == entries[i];
    }
  }

  /** A server whose stored password is empty can never pass the loop. */
  lemma EmptyPasswordNeverPasses(entries: seq<Option<string>>)
    ensures !PasswordGate("", entries).Passed?
  {
  }

  /** The `do ... while (!isPasswordCorrect)` loop over a script of answers. */
  method ConfirmPassword(password: string, entries: seq<Option<string>>) returns (g: Gate)
    ensures g == PasswordGate(password, entries)
  {
    var i := 0;
    while i < |entries|
      invariant 0 <= i <= |entries|
      invariant AllWrong(password, entries[..i])
    {
      var answer := Answer(entries[i]);
      if answer == "" {
        PasswordGateAt(password, entries, i);
        return Cancelled(i);
      } else if answer != password {
        assert entries[..i + 1] == entries[..i] + [entries[i]];
        i := i + 1;
      } else {
        PasswordGateAt(password, entries, i);
        return Passed(i);
      }
    }
    assert entries[..i] == entries;
    g := Unanswered;
  }

  // ---------------------------------------------------------------------
  // Attachments, custom events and the status check of `export`
  // ---------------------------------------------------------------------

  /** A local file as the export reads it: its path and its content. */
  datatype LocalFile = LocalFile(path: string, content: string)

  /** One attachment of the export payload (`AttachmentDTO`). */
  datatype Attachment = Attachment(fileName: string, fileContent: string, principal: bool)

  /**
   * The loop that pushes one attachment per file of the form folder: its base
   * name, its content, and `principal` exactly when its name without
   * extension is the form name.
   */
  method CollectAttachments(formName: string, files: seq<LocalFile>) returns (attachments: seq<Attachment>)
    ensures |attachments| == |files|
    ensures forall i :: 0 <= i < |files| ==>
              attachments[i].fileName == BaseName(files[i].path) && attachments[i].fileContent == files[i].content
    ensures forall i :: 0 <= i < |files| ==> (attachments[i].principal <==> Stem(attachments[i].fileName) == formName)
  {
    attachments := [];
    var i := 0;
    while i < |files|
      invariant 0 <= i <= |files|
      invariant |attachments| == i
      invariant forall k :: 0 <= k < i ==>
                  attachments[k].fileName == BaseName(files[k].path) && attachments[k].fileContent == files[k].content &&
                  (attachments[k].principal <==> Stem(attachments[k].fileName) == formName)
    {
      var base := BaseName(files[i].path);
      attachments := attachments + [Attachment(base, files[i].content, formName == Stem(base))];
      i := i + 1;
    }
  }

  /** The page named after the form, `<form>/<name>.<ext>`, is the principal attachment. */
  lemma MainFileIsPrincipal(folder: string, formName: string, ext: string)
    requires formName != "" && '/' !in formName
    requires '/' !in ext && '.' !in ext
    ensures Stem(BaseName(folder + "/" + formName + "." + ext)) == formName
  {
    assert folder + "/" + formName + "." + ext == folder + "/" + (formName + "." + ext);
    BaseNameOfJoin(folder, formName + "." + ext);
    StemDropsExtension(formName, ext);
  }

  /** A custom event of the export payload (`CustomizationEventsDTO`). */
  datatype CustomEvent = CustomEvent(eventId: string, eventDescription: string)

  /** Where an import writes a custom event: `<folder>/events/<eventId>.js`. */
  function ImportedEventPath(folder: string, eventId: string): string {
    folder + "/events/" + eventId + ".js"
  }

  /** The export's custom-event loop as written: the id is `basename(path)`, extension included. */
  method CollectCustomEventsAsWritten(files: seq<LocalFile>) returns (events: seq<CustomEvent>)
    ensures |events| == |files|
    ensures forall i :: 0 <= i < |files| ==> events[i] == CustomEvent(BaseName(files[i].path), files[i].content)
  {
    events := [];
    for i := 0 to |files|
      invariant |events| == i
      invariant forall k :: 0 <= k < i ==> events[k] == CustomEvent(BaseName(files[k].path), files[k].content)
    {
      events := events + [CustomEvent(BaseName(files[i].path), files[i].content)];
    }
  }

  /**
   * An imported event `<id>` comes back from the written export under the id
   * `<id>.js`, which is not the id it was imported under.
   */
  lemma ExportedEventIdKeepsExtension(folder: string, eventId: string)
    requires '/' !in eventId
    ensures BaseName(ImportedEventPath(folder, eventId)) == eventId + ".js"
    ensures BaseName(ImportedEventPath(folder, eventId)) != eventId
  {
    assert ImportedEventPath(folder, eventId) == (folder + "/events") + "/" + (eventId + ".js");
    BaseNameOfJoin(folder + "/events", eventId + ".js");
  }

  /** The custom-event loop with the id taken as `basename(path, ".js")`. */
  method CollectCustomEvents(files: seq<LocalFile>) returns (events: seq<CustomEvent>)
    ensures |events| == |files|
    ensures forall i :: 0 <= i < |files| ==> events[i] == CustomEvent(BaseNameWithout(files[i].path, ".js"), files[i].content)
  {
    events := [];
    for i := 0 to |files|
      invariant |events| == i
      invariant forall k :: 0 <= k < i ==> events[k] == CustomEvent(BaseNameWithout(files[k].path, ".js"), files[k].content)
    {
      events := events + [CustomEvent(BaseNameWithout(files[i].path, ".js"), files[i].content)];
    }
  }

  /** With the corrected id, an imported event goes back under the id it was imported with. */
  lemma CustomEventIdRoundTrip(folder: string, eventId: string)
    requires eventId != "" && '/' !in eventId
    ensures BaseNameWithout(ImportedEventPath(folder, eventId), ".js") == eventId
  {
    assert ImportedEventPath(folder, eventId) == (folder + "/events") + "/" + eventId + ".js";
    BaseNameWithoutOfJoin(folder + "/events", eventId, ".js");
  }

  const ExportErrorMessage: string := "Erro ao exportar Formulário."

  /**
   * The status check on the create or update reply: `None` when the SOAP
   * call failed, otherwise its `webServiceMessage`. Only `"ok"` is success;
   * any other message is shown as it is.
   */
  function FormExportReport(reply: Option<string>): (r: Report)
    ensures r.Success? <==> reply == Some("ok")
    ensures reply.None? ==> r == Failure(ExportErrorMessage)
    ensures reply.Some? && r.Failure? ==> r.message == reply.value
  {
    match reply
    case None => Failure(ExportErrorMessage)
    case Some(message) => if message == "ok" then Success else Failure(message)
  }

  // ---------------------------------------------------------------------
  // The export pipeline (`export`)
  // ---------------------------------------------------------------------

  /** What the create or update call sends. */
  datatype Payload = Payload(target: Target, datasetName: string, attachments: seq<Attachment>, events: seq<CustomEvent>)

  /**
   * How `export` ends: no workspace, stopped before any remote call (a
   * dismissed prompt, a failed password check, a failed form list call, or a
   * form list reply that `for..of` cannot iterate), or sent with its report.
   */
  datatype ExportOutcome = NoWorkspace | Aborted | Sent(payload: Payload, report: Report)

  /**
   * `export` as written, as a pipeline over its inputs: the workspace check,
   * the chosen server, the password answers, the file's path, the form list
   * reply (`None` when the call failed), the export picker's choice, the dataset-name prompt (the prompts
   * for a new form are collapsed into it), the files the folder globs find
   * with their contents, and the reply of the create or update call. The form
   * list is `getForms` as written and the custom-event ids keep `.js`.
   */
  method ExportForm(workspaceOpen: bool, server: Option<Server>, passwordEntries: seq<Option<string>>,
                    path: string, formsReply: Option<Item<Form>>, choice: Option<string>, datasetName: Option<string>,
                    folderFiles: seq<LocalFile>, eventFiles: seq<LocalFile>, reply: Option<string>)
    returns (outcome: ExportOutcome)
    ensures !workspaceOpen ==> outcome == NoWorkspace
    ensures outcome.Sent? ==> workspaceOpen && server.Some?
    ensures outcome.Sent? && server.value.confirmExporting ==> PasswordGate(server.value.password, passwordEntries).Passed?
    ensures formsReply.None? || FormsAsWritten(formsReply.value).None? ==> !outcome.Sent?
    ensures outcome.Sent? ==> formsReply.Some? && FormsAsWritten(formsReply.value).Some?
    ensures outcome.Sent? ==> Some(outcome.payload.target) == ResolveExportChoice(FormsAsWritten(formsReply.value).value, choice)
    ensures outcome.Sent? ==> Some(outcome.payload.datasetName) == datasetName && Answer(datasetName) != ""
    ensures outcome.Sent? ==> |outcome.payload.attachments| == |folderFiles| && |outcome.payload.events| == |eventFiles|
    ensures outcome.Sent? ==> forall i :: 0 <= i < |folderFiles| ==>
              outcome.payload.attachments[i] ==
                Attachment(BaseName(folderFiles[i].path), folderFiles[i].content, Stem(BaseName(folderFiles[i].path)) == FormName(path))
    ensures outcome.Sent? ==> forall i :: 0 <= i < |eventFiles| ==>
              outcome.payload.events[i] == CustomEvent(BaseName(eventFiles[i].path), eventFiles[i].content)
    ensures outcome.Sent? ==> outcome.report == FormExportReport(reply)
    ensures workspaceOpen && server.Some? &&
            (server.value.confirmExporting ==> PasswordGate(server.value.password, passwordEntries).Passed?) &&
            formsReply.Some? && FormsAsWritten(formsReply.value).Some? &&
            ResolveExportChoice(FormsAsWritten(formsReply.value).value, choice).Some? &&
            Answer(datasetName) != ""
            ==> outcome.Sent?
  {
    if !workspaceOpen {
      return NoWorkspace;
    }
    if server.None? {
      return Aborted;
    }
    if server.value.confirmExporting {
      var gate := ConfirmPassword(server.value.password, passwordEntries);
      if !gate.Passed? {
        return Aborted;
      }
    }
    var formName := FormName(path);
    if formsReply.None? {
      return Aborted;
    }
    var forms := FormsAsWritten(formsReply.value);
    if forms.None? {
      return Aborted;
    }
    var target := ResolveExportChoice(forms.value, choice);
    if target.None? {
      return Aborted;
    }
    if Answer(datasetName) == "" {
      return Aborted;
    }
    var attachments := CollectAttachments(formName, folderFiles);
    var events := CollectCustomEventsAsWritten(eventFiles);
    var payload := Payload(target.value, datasetName.value, attachments, events);
    outcome := Sent(payload, FormExportReport(reply));
  }
}
