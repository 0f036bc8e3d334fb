/** The donation form: the rule behind every field, the edits the page makes, and the inline errors they clear. */
module DonationForm {
  import opened Text

  datatype GiftType = Diezmo | Ofrenda
  datatype DocumentType = Dui | Nit | Otro | Pasaporte | Carnet

  datatype Form = Form(
    amount: string,
    giftType: Option<GiftType>,
    donorDocumentType: DocumentType,
    donorDocument: string,
    donorName: string,
    foreignResident: bool,
    pais: string,
    departamento: string,
    municipio: string,
    distrito: string)

  /** The controls that can carry an inline error. */
  datatype Field =
    | GiftTypeField | AmountField | DocumentField | NameField
    | PaisField | DepartamentoField | MunicipioField | DistritoField

  /** What the form holds, one key per field of `Form`. */
  datatype Key =
    | AmountKey | GiftTypeKey | DocumentTypeKey | DocumentKey | NameKey
    | ForeignKey | PaisKey | DepartamentoKey | MunicipioKey | DistritoKey

  datatype Message =
    | SelectGiftType | InvalidAmount | AmountTooSmall
    | CheckDui | EnterNit | EnterDocumentOf5To30 | EnterDocument | DocumentTooLong
    | EnterName | NameTooLong
    | SelectPais | SelectDepartamento | SelectMunicipio | SelectDistrito

  type Errors = map<Field, Message>

  /** What the page takes from elsewhere: trimming, parsing a finite number, and two document formats. */
  datatype Rules = Rules(
    trim: string -> string,
    parse: string -> Option<real>,
    isValidDui: string -> bool,
    isValidNit: string -> bool)

  const MIN_AMOUNT := 1.0

  const STEP1_ORDER: seq<Field> := [GiftTypeField, AmountField]
  const STEP2_ORDER: seq<Field> :=
    [DocumentField, NameField, PaisField, DepartamentoField, MunicipioField, DistritoField]

  // ----- What each field must be -----

  function AmountMessage(rules: Rules, amount: string): Option<Message> {
    var text := rules.trim(amount);
    if text == "" || rules.parse(text).None? then Some(InvalidAmount)
    else if rules.parse(text).value < MIN_AMOUNT then Some(AmountTooSmall)
    else None
  }

  function DocumentMessage(rules: Rules, documentType: DocumentType, document: string): Option<Message> {
    var length := |rules.trim(document)|;
    match documentType
    case Dui => if rules.isValidDui(document) then None else Some(CheckDui)
    case Nit => if rules.isValidNit(document) then None else Some(EnterNit)
    case Pasaporte => if 5 <= length <= 30 then None else Some(EnterDocumentOf5To30)
    case Carnet => if 5 <= length <= 30 then None else Some(EnterDocumentOf5To30)
    case Otro => if length == 0 then Some(EnterDocument) else if length > 50 then Some(DocumentTooLong) else None
  }

  function NameMessage(rules: Rules, documentType: DocumentType, name: string): Option<Message> {
    var length := |rules.trim(name)|;
    if documentType != Nit then None
    else if length == 0 then Some(EnterName)
    else if length > 200 then Some(NameTooLong)
    else None
  }

  function Required(applies: bool, value: string, message: Message): Option<Message> {
    if applies && value == "" then Some(message) else None
  }

  /** The message a field deserves, judged on its own. */
  function Rule(rules: Rules, form: Form, field: Field): Option<Message> {
    match field
    case GiftTypeField => if form.giftType.None? then Some(SelectGiftType) else None
    case AmountField => AmountMessage(rules, form.amount)
    case DocumentField => DocumentMessage(rules, form.donorDocumentType, form.donorDocument)
    case NameField => NameMessage(rules, form.donorDocumentType, form.donorName)
    case PaisField => Required(form.foreignResident, form.pais, SelectPais)
    case DepartamentoField => Required(!form.foreignResident, form.departamento, SelectDepartamento)
    case MunicipioField => Required(!form.foreignResident, form.municipio, SelectMunicipio)
    case DistritoField => Required(!form.foreignResident, form.distrito, SelectDistrito)
  }

  /** When each message is deserved, message by message. */
  lemma MessagesOfTheFirstStep(rules: Rules, form: Form)
    ensures var text := rules.trim(form.amount);
            var number := rules.parse(text);
            && (Rule(rules, form, GiftTypeField) == Some(SelectGiftType) <==> form.giftType.None?)
            && (Rule(rules, form, AmountField) == Some(InvalidAmount) <==> text == "" || number.None?)
            && (Rule(rules, form, AmountField) == Some(AmountTooSmall) <==>
                text != "" && number.Some? && number.value < 1.0)
            && (Rule(rules, form, AmountField).None? <==> text != "" && number.Some? && number.value >= 1.0)
            && (Rule(rules, form, GiftTypeField).None? <==> form.giftType.Some?)
  {
  }

  lemma MessagesOfTheDocument(rules: Rules, form: Form)
    ensures var kind, document, name := form.donorDocumentType, form.donorDocument, form.donorName;
            var n, m := |rules.trim(document)|, |rules.trim(name)|;
            var deserved, ofName := Rule(rules, form, DocumentField), Rule(rules, form, NameField);
            && (deserved == Some(CheckDui) <==> kind == Dui && !rules.isValidDui(document))
            && (deserved == Some(EnterNit) <==> kind == Nit && !rules.isValidNit(document))
            && (deserved == Some(EnterDocumentOf5To30) <==> (kind == Pasaporte || kind == Carnet) && (n < 5 || n > 30))
            && (deserved == Some(EnterDocument) <==> kind == Otro && n == 0)
            && (deserved == Some(DocumentTooLong) <==> kind == Otro && n > 50)
            && (deserved.Some? ==>
                  deserved.value in {CheckDui, EnterNit, EnterDocumentOf5To30, EnterDocument, DocumentTooLong})
            && (ofName == Some(EnterName) <==> kind == Nit && m == 0)
            && (ofName == Some(NameTooLong) <==> kind == Nit && m > 200)
            && (ofName.Some? ==> ofName.value in {EnterName, NameTooLong})
  {
  }

  lemma MessagesOfTheAddress(rules: Rules, form: Form)
    ensures var abroad := form.foreignResident;
            && Rule(rules, form, PaisField) == (if abroad && form.pais == "" then Some(SelectPais) else None)
            && Rule(rules, form, DepartamentoField) ==
               (if !abroad && form.departamento == "" then Some(SelectDepartamento) else None)
            && Rule(rules, form, MunicipioField) ==
               (if !abroad && form.municipio == "" then Some(SelectMunicipio) else None)
            && Rule(rules, form, DistritoField) ==
               (if !abroad && form.distrito == "" then Some(SelectDistrito) else None)
  {
  }

  /** Every message shown is the one its field deserves now. */
  ghost predicate Truthful(rules: Rules, form: Form, errors: Errors) {
    forall f :: f in errors ==> Rule(rules, form, f) == Some(errors[f])
  }

  /** The messages of exactly the given fields that deserve one. */
  function Judged(rules: Rules, form: Form, fields: seq<Field>): Errors {
    map f | f in fields && Rule(rules, form, f).Some? :: Rule(rules, form, f).value
  }

  ghost predicate Judges(rules: Rules, form: Form, fields: seq<Field>, errors: Errors) {
    Truthful(rules, form, errors) && forall f :: f in errors <==> f in fields && Rule(rules, form, f).Some?
  }

  lemma JudgesIsJudged(rules: Rules, form: Form, fields: seq<Field>, errors: Errors)
    ensures Judges(rules, form, fields, errors) <==> errors == Judged(rules, form, fields)
  {
  }

  method DonationStep1FieldErrors(rules: Rules, form: Form) returns (errors: Errors)
    ensures Judges(rules, form, STEP1_ORDER, errors)
  {
    errors := map[];
    if form.giftType.None? {
      errors := errors[GiftTypeField := SelectGiftType];
    }
    var amountMessage := AmountMessage(rules, form.amount);
    if amountMessage.Some? {
      errors := errors[AmountField := amountMessage.value];
    }
  }

  method DonationStep2FieldErrors(rules: Rules, form: Form) returns (errors: Errors)
    ensures Judges(rules, form, STEP2_ORDER, errors)
  {
    errors := map[];
    if form.donorDocumentType == Dui {
      if !rules.isValidDui(form.donorDocument) {
        errors := errors[DocumentField := CheckDui];
      }
    } else if form.donorDocumentType == Nit {
      if !rules.isValidNit(form.donorDocument) {
        errors := errors[DocumentField := EnterNit];
      }
      if rules.trim(form.donorName) == "" {
        errors := errors[NameField := EnterName];
      } else if |rules.trim(form.donorName)| > 200 {
        errors := errors[NameField := NameTooLong];
      }
    } else if form.donorDocumentType == Pasaporte || form.donorDocumentType == Carnet {
      var documentLength := |rules.trim(form.donorDocument)|;
      if documentLength < 5 || documentLength > 30 {
        errors := errors[DocumentField := EnterDocumentOf5To30];
      }
    } else if rules.trim(form.donorDocument) == "" {
      errors := errors[DocumentField := EnterDocument];
    } else if |rules.trim(form.donorDocument)| > 50 {
      errors := errors[DocumentField := DocumentTooLong];
    }
    assert Judges(rules, form, [DocumentField, NameField], errors);

    if form.foreignResident {
      if form.pais == "" {
        errors := errors[PaisField := SelectPais];
      }
    } else {
      if form.departamento == "" {
        errors := errors[DepartamentoField := SelectDepartamento];
      }
      if form.municipio == "" {
        errors := errors[MunicipioField := SelectMunicipio];
      }
      if form.distrito == "" {
        errors := errors[DistritoField := SelectDistrito];
      }
    }
  }

  /** The first field in order that has an error, where the focus goes. */
  method FirstDonationFieldError(errors: Errors, order: seq<Field>) returns (first: Option<Field>)
    ensures first.None? <==> forall i :: 0 <= i < |order| ==> order[i] !in errors
    ensures first.Some? ==> exists i :: 0 <= i < |order| && order[i] == first.value && order[i] in errors
                                        && forall j :: 0 <= j < i ==> order[j] !in errors
  {
    for i := 0 to |order|
      invariant forall j :: 0 <= j < i ==> order[j] !in errors
    {
      if order[i] in errors {
        return Some(order[i]);
      }
    }
    first := None;
  }

  // ----- Edits and the errors they clear -----

  function Clearers(key: Key): seq<Field> {
    match key
    case AmountKey => [AmountField]
    case GiftTypeKey => [GiftTypeField]
    case DocumentTypeKey => [DocumentField, NameField]
    case DocumentKey => [DocumentField]
    case NameKey => [NameField]
    case ForeignKey => [PaisField, DepartamentoField, MunicipioField, DistritoField]
    case PaisKey => [PaisField]
    case DepartamentoKey => [DepartamentoField]
    case MunicipioKey => [MunicipioField]
    case DistritoKey => [DistritoField]
  }

  function Cleared(changed: seq<Key>): seq<Field> {
    if changed == [] then [] else Clearers(changed[0]) + Cleared(changed[1..])
  }

  function Without(errors: Errors, changed: seq<Key>): Errors {
    map f | f in errors && f !in Cleared(changed) :: errors[f]
  }

  method ClearDonationFieldErrors(errors: Errors, changed: seq<Key>) returns (next: Errors)
    ensures next == Without(errors, changed)
  {
    var cleared := Cleared(changed);
    if !(exists i :: 0 <= i < |cleared| && cleared[i] in errors) {
      assert Without(errors, changed) == errors;
      return errors;
    }
    next := errors;
    for i := 0 to |cleared|
      invariant forall f :: f in next <==> f in errors && f !in cleared[..i]
      invariant forall f :: f in next ==> next[f] == errors[f]
    {
      next := next - {cleared[i]};
    }
    assert cleared[..|cleared|] == cleared;
    assert next == Without(errors, changed);
  }

  /** The edits the wizard's controls make. */
  datatype Edit =
    | PickGiftType(giftType: GiftType)
    | TypeAmount(amount: string)
    | PickDocumentType(documentType: DocumentType)
    | TypeDocument(document: string)
    | TypeName(name: string)
    | ToggleForeign(foreignResident: bool)
    | PickPais(pais: string)
    | PickDepartamento(departamento: string)
    | PickMunicipio(municipio: string)
    | PickDistrito(distrito: string)

  /** A new document type empties what it re-scopes, and residence and departamento empty the geography below them. */
  function Patched(form: Form, edit: Edit): Form {
    match edit
    case PickGiftType(giftType) => form.(giftType := Some(giftType))
    case TypeAmount(amount) => form.(amount := amount)
    case PickDocumentType(documentType) =>
      form.(donorDocumentType := documentType, donorDocument := "", donorName := "")
    case TypeDocument(document) => form.(donorDocument := document)
    case TypeName(name) => form.(donorName := name)
    case ToggleForeign(foreignResident) =>
      form.(foreignResident := foreignResident, departamento := "", municipio := "", distrito := "", pais := "")
    case PickPais(pais) => form.(pais := pais)
    case PickDepartamento(departamento) => form.(departamento := departamento, municipio := "", distrito := "")
    case PickMunicipio(municipio) => form.(municipio := municipio)
    case PickDistrito(distrito) => form.(distrito := distrito)
  }

  /** The keys whose errors an edit clears: all it writes, but only the departamento for a departamento. */
  function EditedKeys(edit: Edit): seq<Key> {
    match edit
    case PickGiftType(_) => [GiftTypeKey]
    case TypeAmount(_) => [AmountKey]
    case PickDocumentType(_) => [DocumentTypeKey, DocumentKey, NameKey]
    case TypeDocument(_) => [DocumentKey]
    case TypeName(_) => [NameKey]
    case ToggleForeign(_) => [ForeignKey, DepartamentoKey, MunicipioKey, DistritoKey, PaisKey]
    case PickPais(_) => [PaisKey]
    case PickDepartamento(_) => [DepartamentoKey]
    case PickMunicipio(_) => [MunicipioKey]
    case PickDistrito(_) => [DistritoKey]
  }

  // ----- The clearer table is the dependency table -----

  /** Two forms that differ in at most one key. */
  predicate SameExcept(a: Form, b: Form, key: Key) {
    match key
    case AmountKey => b == a.(amount := b.amount)
    case GiftTypeKey => b == a.(giftType := b.giftType)
    case DocumentTypeKey => b == a.(donorDocumentType := b.donorDocumentType)
    case DocumentKey => b == a.(donorDocument := b.donorDocument)
    case NameKey => b == a.(donorName := b.donorName)
    case ForeignKey => b == a.(foreignResident := b.foreignResident)
    case PaisKey => b == a.(pais := b.pais)
    case DepartamentoKey => b == a.(departamento := b.departamento)
    case MunicipioKey => b == a.(municipio := b.municipio)
    case DistritoKey => b == a.(distrito := b.distrito)
  }

  /** Some change of the key alone changes what the field deserves, under some document formats. */
  ghost predicate DependsOn(field: Field, key: Key) {
    exists rules, a, b :: SameExcept(a, b, key) && Rule(rules, a, field) != Rule(rules, b, field)
  }

  lemma OtherFieldsAreUnaffected(rules: Rules, a: Form, b: Form, key: Key, field: Field)
    requires SameExcept(a, b, key) && field !in Clearers(key)
    ensures Rule(rules, a, field) == Rule(rules, b, field)
  {
  }

  function Blank(documentType: DocumentType, foreignResident: bool): Form {
    Form("", None, documentType, "", "", foreignResident, "", "", "", "")
  }

  /** The form with just one key filled. */
  function FilledAt(form: Form, key: Key): Form {
    match key
    case AmountKey => form.(amount := "5")
    case GiftTypeKey => form.(giftType := Some(Diezmo))
    case DocumentTypeKey => form.(donorDocumentType := Otro)
    case DocumentKey => form.(donorDocument := "5")
    case NameKey => form.(donorName := "5")
    case ForeignKey => form.(foreignResident := !form.foreignResident)
    case PaisKey => form.(pais := "5")
    case DepartamentoKey => form.(departamento := "5")
    case MunicipioKey => form.(municipio := "5")
    case DistritoKey => form.(distrito := "5")
  }

  /** Each key clears exactly the errors that its value can affect. */
  lemma ClearersAreDependencies(field: Field, key: Key)
    ensures field in Clearers(key) <==> DependsOn(field, key)
  {
    if field in Clearers(key) {
      var rules := Rules(s => s, s => Some(5.0), s => s != "", s => s != "");
      var a := Blank(Nit, key == PaisKey);
      var b := FilledAt(a, key);
      assert SameExcept(a, b, key) && Rule(rules, a, field) != Rule(rules, b, field);
    } else if DependsOn(field, key) {
      var rules, a, b :| SameExcept(a, b, key) && Rule(rules, a, field) != Rule(rules, b, field);
      OtherFieldsAreUnaffected(rules, a, b, key, field);
    }
  }

  // ----- Errors stay true -----

  /** An edit leaves only true messages: it clears all it can affect, and a reset child still deserves its own. */
  lemma EditKeepsErrorsTrue(rules: Rules, form: Form, errors: Errors, edit: Edit)
    requires Truthful(rules, form, errors)
    ensures Truthful(rules, Patched(form, edit), Without(errors, EditedKeys(edit)))
  {
    forall f | f in Without(errors, EditedKeys(edit)) ensures Rule(rules, Patched(form, edit), f) == Some(errors[f]) {
      UnclearedStaysTrue(rules, form, errors, edit, f);
    }
  }

  lemma UnclearedStaysTrue(rules: Rules, form: Form, errors: Errors, edit: Edit, f: Field)
    requires f in errors && Rule(rules, form, f) == Some(errors[f]) && f !in Cleared(EditedKeys(edit))
    ensures Rule(rules, Patched(form, edit), f) == Some(errors[f])
  {
  }

  function Typed(form: Form, edits: seq<Edit>): Form
    decreases |edits|
  {
    if edits == [] then form else Typed(Patched(form, edits[0]), edits[1..])
  }

  function Remaining(errors: Errors, edits: seq<Edit>): Errors {
    if edits == [] then errors else Remaining(Without(errors, EditedKeys(edits[0])), edits[1..])
  }

  /**
   * Over any sequence of edits: every message still shown is the one the form deserves now, and a message goes only
   * with an edit that can affect its field.
   */
  lemma {:induction false} ErrorsStayTrue(rules: Rules, form: Form, errors: Errors, edits: seq<Edit>)
    requires Truthful(rules, form, errors)
    ensures Truthful(rules, Typed(form, edits), Remaining(errors, edits))
    ensures forall f :: f in Remaining(errors, edits) <==>
              f in errors && forall i :: 0 <= i < |edits| ==> f !in Cleared(EditedKeys(edits[i]))
    decreases |edits|
  {
    if edits != [] {
      EditKeepsErrorsTrue(rules, form, errors, edits[0]);
      ErrorsStayTrue(rules, Patched(form, edits[0]), Without(errors, EditedKeys(edits[0])), edits[1..]);
    }
  }
}
