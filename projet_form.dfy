/**
 * The project form: validation of the required fields, the two change
 * handlers, and the submission that is sent only without errors.
 */
module ProjetForm {
  import opened Wrappers

  /** The fields of the project form, by the name of their input. */
  datatype Field = Nom | Code | OrdreTravail | DirectClient | FinalClient | Sop | Ibu | Cbu | Tl
    | DateDemarrage | ChefDeProjet | Statut | Descriptif

  /** The form state: field to value, `None` for `null`; a field not in the map is `undefined`. */
  type Form = map<Field, Option<string>>

  const ACTIF := "Actif"

  const ALL_FIELDS: set<Field> := {Nom, Code, OrdreTravail, DirectClient, FinalClient, Sop, Ibu, Cbu, Tl,
    DateDemarrage, ChefDeProjet, Statut, Descriptif}

  /** The initial state: every field empty, `tl` null and the status `Actif`. */
  function InitialForm(): (f: Form)
    ensures f.Keys == ALL_FIELDS
  {
    map x: Field | x in ALL_FIELDS :: if x == Tl then None else if x == Statut then Some(ACTIF) else Some("")
  }

  /** The text of a field, `""` when it is `undefined` or `null`. */
  function Text(form: Form, name: Field): string
  {
    if name in form && form[name].Some? then form[name].value else ""
  }

  /** The value of a field is falsy: `undefined`, `null` or the empty string. */
  predicate Missing(form: Form, name: Field)
  {
    Text(form, name) == ""
  }

  /**
   * The required fields, in the order `validateForm` checks them;
   * `ordre_travail`, `ibu`, `cbu`, `tl`, `chef_de_projet` and `statut` are optional.
   */
  const CHECKED: seq<Field> := [Nom, Code, DirectClient, FinalClient, Sop, DateDemarrage, Descriptif]

  predicate Required(f: Field)
  {
    f in CHECKED
  }

  /** The message of a required field; the optional fields have none. */
  function MessageOf(f: Field): string
  {
    match f
    case Nom => "Le nom du projet est requis."
    case Code => "Le code du projet est requis."
    case DirectClient => "Le client direct est requis."
    case FinalClient => "Le client final est requis."
    case Sop => "Le SOP est requis."
    case DateDemarrage => "La date de démarrage est requise."
    case Descriptif => "Le descriptif est requis."
    case _ => ""
  }

  /** `errors` holds exactly one error, with its message, for each missing field among the first `n` checked. */
  predicate ErrorsFor(form: Form, errors: map<Field, string>, n: nat)
    requires n <= |CHECKED|
  {
    forall f :: (f in errors <==> f in CHECKED[..n] && Missing(form, f)) && (f in errors ==> errors[f] == MessageOf(f))
  }

  /** The `n`-th line `if (!formData.x) newErrors.x = "…"` of `validateForm`. */
  method Check(form: Form, errors: map<Field, string>, n: nat) returns (r: map<Field, string>)
    requires n < |CHECKED| && ErrorsFor(form, errors, n)
    ensures ErrorsFor(form, r, n + 1)
  {
    var f := CHECKED[n];
    assert CHECKED[..n + 1] == CHECKED[..n] + [f];
    r := errors;
    if Missing(form, f) {
      r := r[f := MessageOf(f)];
    }
  }

  /** `validateForm`: one error, with its message, for each required field that is missing, and none for the others. */
  method ValidateForm(form: Form) returns (errors: map<Field, string>)
    ensures forall f :: f in errors <==> Required(f) && Missing(form, f)
    ensures forall f :: f in errors ==> errors[f] == MessageOf(f)
  {
    errors := map[];
    errors := Check(form, errors, 0);
    errors := Check(form, errors, 1);
    errors := Check(form, errors, 2);
    errors := Check(form, errors, 3);
    errors := Check(form, errors, 4);
    errors := Check(form, errors, 5);
    errors := Check(form, errors, 6);
    assert CHECKED[..|CHECKED|] == CHECKED;
  }

  /** `handleChange`: the raw value of the input, under its name. */
  function HandleChange(form: Form, name: Field, value: string): (r: Form)
    ensures name in r && r[name] == Some(value)
    ensures forall k :: k != name ==> (k in r <==> k in form)
    ensures forall k :: k != name && k in form ==> r[k] == form[k]
  {
    form[name := Some(value)]
  }

  /** `handleSelectChange`: an empty selection is stored as `null`, any other value as it is. */
  function HandleSelectChange(form: Form, name: Field, value: string): (r: Form)
    ensures name in r && (r[name].None? <==> value == "")
    ensures value != "" ==> r[name] == Some(value)
    ensures forall k :: k != name ==> (k in r <==> k in form)
    ensures forall k :: k != name && k in form ==> r[k] == form[k]
  {
    form[name := if value == "" then None else Some(value)]
  }

  /** Clearing a select makes that field missing; a non-empty value fills it; no other field changes its state. */
  lemma HandlersAndValidation(form: Form, name: Field, value: string)
    ensures Missing(HandleSelectChange(form, name, ""), name)
    ensures value != "" ==> !Missing(HandleChange(form, name, value), name)
    ensures value != "" ==> !Missing(HandleSelectChange(form, name, value), name)
    ensures forall k :: k != name ==> (Missing(HandleChange(form, name, value), k) <==> Missing(form, k))
    ensures forall k :: k != name ==> (Missing(HandleSelectChange(form, name, value), k) <==> Missing(form, k))
  {
  }

  /** The request sent on submission: an update in edit mode, a creation otherwise. */
  datatype Request = Put(projetId: string, data: Form) | Post(data: Form)

  /**
   * `handleSubmit`: validation first; without errors the whole form is sent,
   * to the project of the route in edit mode.
   */
  method HandleSubmit(form: Form, routeId: Option<string>) returns (errors: map<Field, string>, request: Option<Request>)
    ensures forall f :: f in errors <==> Required(f) && Missing(form, f)
    ensures request.Some? <==> errors == map[]
    ensures request.Some? ==> request.value.data == form
    ensures request.Some? ==> (request.value.Put? <==> routeId.Some?)
    ensures request.Some? && routeId.Some? ==> request.value.projetId == routeId.value
  {
    errors := ValidateForm(form);
    if |errors| == 0 {
      request := if routeId.Some? then Some(Put(routeId.value, form)) else Some(Post(form));
    } else {
      request := None;
    }
  }

  /** The initial form cannot be submitted: every required field is empty, and only the status is filled. */
  lemma InitialFormBlocked()
    ensures forall f :: Required(f) ==> Missing(InitialForm(), f)
    ensures !Missing(InitialForm(), Statut)
  {
  }
}
