/**
 The validator of the "new product" form. It receives the four form values
 and returns a map from field name to error message, empty when no check
 fails. What its caller does with that map is not part of this model.

 The form state starts with all four values set to the empty string and
 holds strings only. Of those values, only the empty string is falsy in
 JavaScript, so a value is "missing" exactly when it is empty. A value made
 of spaces is not missing.
 */
module Validacion {
  import UrlPattern

  datatype Option<T> = None | Some(value: T)

  /** The values of the product form. */
  datatype Valores = Valores(nombre: string, empresa: string, url: string, descripcion: string)

  /** The fields the validator inspects, in the order it inspects them. */
  datatype Campo = Nombre | Empresa | Url | Descripcion

  const Campos: set<Campo> := {Nombre, Empresa, Url, Descripcion}

  /** The keys the validator may write, one per field. */
  const Claves: set<string> := {"nombre", "empresa", "url", "descripcion"}

  const NombreObligatorio: string := "El Nombre es obligatorio"
  const EmpresaObligatoria: string := "Nombre de Empresa es obligatorio"
  const UrlObligatoria: string := "La URL del producto es obligatoria"
  const UrlNoValida: string := "URL no válida"
  const DescripcionObligatoria: string := "Agrega una descripcion de tu producto"

  /** The key under which a field's error is stored. */
  function Clave(c: Campo): string {
    match c
    case Nombre => "nombre"
    case Empresa => "empresa"
    case Url => "url"
    case Descripcion => "descripcion"
  }

  /** The value the form holds for a field. */
  function Valor(v: Valores, c: Campo): string {
    match c
    case Nombre => v.nombre
    case Empresa => v.empresa
    case Url => v.url
    case Descripcion => v.descripcion
  }

  /** The message for a field left empty. */
  function Obligatorio(c: Campo): string {
    match c
    case Nombre => NombreObligatorio
    case Empresa => EmpresaObligatoria
    case Url => UrlObligatoria
    case Descripcion => DescripcionObligatoria
  }

  /** The error, if any, that one field with value `valor` receives on its
      own: a missing value is reported first, and only a present URL is
      checked against the pattern. */
  function Mensaje(c: Campo, valor: string): Option<string> {
    if valor == "" then Some(Obligatorio(c))
    else if c == Url && !UrlPattern.Matches(valor) then Some(UrlNoValida)
    else None
  }

  /** Reference definition of the validator's result: each field, taken on
      its own, contributes its message under its key. */
  function Errores(v: Valores): map<string, string> {
    map c | c in Campos && Mensaje(c, Valor(v, c)).Some? :: Clave(c) := Mensaje(c, Valor(v, c)).value
  }

  /** The validator as the form runs it: start from an empty map and add
      one entry per failed check, the URL format being checked only when a
      URL is present. */
  method ValidarCrearProducto(valores: Valores) returns (errores: map<string, string>)
    ensures errores == Errores(valores)
  {
    errores := map[];

    if valores.nombre == "" {
      errores := errores["nombre" := NombreObligatorio];
    }
    assert errores.Keys <= {"nombre"} && Registra(errores, Nombre, valores);

    if valores.empresa == "" {
      errores := errores["empresa" := EmpresaObligatoria];
    }
    assert errores.Keys <= {"nombre", "empresa"};
    assert Registra(errores, Nombre, valores) && Registra(errores, Empresa, valores);

    if valores.url == "" {
      errores := errores["url" := UrlObligatoria];
    } else if !UrlPattern.Matches(valores.url) {
      errores := errores["url" := UrlNoValida];
    }
    assert errores.Keys <= {"nombre", "empresa", "url"};
    assert Registra(errores, Nombre, valores) && Registra(errores, Empresa, valores);
    assert Registra(errores, Url, valores);

    if valores.descripcion == "" {
      errores := errores["descripcion" := DescripcionObligatoria];
    }

    ResultadoUnico(errores, valores);
  }

  /** `m` holds, for field `c`, exactly the entry that field's own check
      calls for. */
  ghost predicate Registra(m: map<string, string>, c: Campo, v: Valores) {
    && (Clave(c) in m <==> Mensaje(c, Valor(v, c)).Some?)
    && (Clave(c) in m ==> m[Clave(c)] == Mensaje(c, Valor(v, c)).value)
  }

  /** The result is determined by its four entries: any map whose keys are
      field names and which holds each field's own entry is `Errores(v)`. */
  lemma ResultadoUnico(m: map<string, string>, v: Valores)
    requires m.Keys <= Claves
    requires Registra(m, Nombre, v) && Registra(m, Empresa, v)
    requires Registra(m, Url, v) && Registra(m, Descripcion, v)
    ensures m == Errores(v)
  {
    var e := Errores(v);
    EntradaDeCampo(v, Nombre);
    EntradaDeCampo(v, Empresa);
    EntradaDeCampo(v, Url);
    EntradaDeCampo(v, Descripcion);
    ClavesPosibles(v);
    forall k | k in Claves
      ensures k in m <==> k in e
      ensures k in m ==> m[k] == e[k]
    {
      assert k == Clave(Nombre) || k == Clave(Empresa) || k == Clave(Url) || k == Clave(Descripcion);
    }
  }

  /** A field's entry in the result: present exactly when the field fails
      its own check, and then holding that check's message. */
  lemma EntradaDeCampo(v: Valores, c: Campo)
    ensures Clave(c) in Errores(v) <==> Mensaje(c, Valor(v, c)).Some?
    ensures Clave(c) in Errores(v) ==> Errores(v)[Clave(c)] == Mensaje(c, Valor(v, c)).value
  {
    assert c in Campos;
    forall d | d in Campos && Clave(d) == Clave(c) ensures d == c {
    }
  }

  /** `nombre` is reported, with its fixed message, exactly when it is empty. */
  lemma ErrorNombre(v: Valores)
    ensures "nombre" in Errores(v) <==> v.nombre == ""
    ensures "nombre" in Errores(v) ==> Errores(v)["nombre"] == "El Nombre es obligatorio"
  {
    EntradaDeCampo(v, Nombre);
  }

  /** `empresa` is reported, with its fixed message, exactly when it is empty. */
  lemma ErrorEmpresa(v: Valores)
    ensures "empresa" in Errores(v) <==> v.empresa == ""
    ensures "empresa" in Errores(v) ==> Errores(v)["empresa"] == "Nombre de Empresa es obligatorio"
  {
    EntradaDeCampo(v, Empresa);
  }

  /** An empty `url` is reported as missing and never as malformed; a
      present one is reported as malformed exactly when the pattern
      rejects it. */
  lemma ErrorUrl(v: Valores)
    ensures v.url == "" ==> "url" in Errores(v) && Errores(v)["url"] == "La URL del producto es obligatoria"
    ensures v.url != "" ==> ("url" in Errores(v) <==> !UrlPattern.Matches(v.url))
    ensures v.url != "" && !UrlPattern.Matches(v.url) ==> Errores(v)["url"] == "URL no válida"
  {
    EntradaDeCampo(v, Url);
  }

  /** `descripcion` is reported, with its fixed message, exactly when it is
      empty. */
  lemma ErrorDescripcion(v: Valores)
    ensures "descripcion" in Errores(v) <==> v.descripcion == ""
    ensures "descripcion" in Errores(v) ==> Errores(v)["descripcion"] == "Agrega una descripcion de tu producto"
  {
    EntradaDeCampo(v, Descripcion);
  }

  /** Only the four field names ever appear as keys; in particular the
      image field has no entry. */
  lemma ClavesPosibles(v: Valores)
    ensures Errores(v).Keys <= Claves
    ensures "imagen" !in Errores(v)
  {
  }

  /** A field's entry depends on that field's value alone: two forms that
      agree on the field agree on its entry, whatever the other fields hold. */
  lemma CampoIndependiente(v: Valores, w: Valores, c: Campo)
    requires Valor(v, c) == Valor(w, c)
    ensures Clave(c) in Errores(v) <==> Clave(c) in Errores(w)
    ensures Clave(c) in Errores(v) ==> Errores(v)[Clave(c)] == Errores(w)[Clave(c)]
  {
    EntradaDeCampo(v, c);
    EntradaDeCampo(w, c);
  }

  /** The result has no entry at all exactly when every field is present
      and the URL matches the pattern. */
  lemma SinErroresSiiValido(v: Valores)
    ensures Errores(v) == map[] <==>
      v.nombre != "" && v.empresa != "" && v.url != "" && v.descripcion != "" && UrlPattern.Matches(v.url)
  {
    ErrorNombre(v);
    ErrorEmpresa(v);
    ErrorUrl(v);
    ErrorDescripcion(v);
  }

  /** The `url` entry is absent exactly when the URL belongs to the
      pattern's language; the empty URL does not, since the pattern needs a
      character after the separator. */
  lemma UrlAceptadaSiiEnLenguaje(v: Valores)
    ensures "url" !in Errores(v) <==> UrlPattern.InLanguage(v.url)
  {
    ErrorUrl(v);
    UrlPattern.MatchesIffInLanguage(v.url);
  }

  /** A form whose name is a single space gets no errors: only the empty
      string counts as missing. */
  lemma EjemploAceptado()
    ensures Errores(Valores(" ", "Acme", "https://acme.example/x", "Un producto")) == map[]
  {
    UrlPattern.MatchesIsComplete(2, "acme.example/x");
    assert UrlPattern.Schemes[2] + UrlPattern.Separator + "acme.example/x" == "https://acme.example/x";
    SinErroresSiiValido(Valores(" ", "Acme", "https://acme.example/x", "Un producto"));
  }

  /** A form with every field empty gets all four "missing" messages and
      no format message. */
  lemma EjemploVacio()
    ensures Errores(Valores("", "", "", "")) ==
      map["nombre" := "El Nombre es obligatorio",
          "empresa" := "Nombre de Empresa es obligatorio",
          "url" := "La URL del producto es obligatoria",
          "descripcion" := "Agrega una descripcion de tu producto"]
  {
    var v := Valores("", "", "", "");
    ErrorNombre(v);
    ErrorEmpresa(v);
    ErrorUrl(v);
    ErrorDescripcion(v);
    ClavesPosibles(v);
  }
}
