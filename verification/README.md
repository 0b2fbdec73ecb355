# Product form validation, modelled in Dafny

This project models `validarCrearProducto`, the validator of the "new
product" form of a Product Hunt–style web application. The validator takes
the four form values `nombre`, `empresa`, `url` and `descripcion`. It returns
an object that maps a field name to a Spanish error message. Its caller,
the `useValidacion` hook, receives the validator together with the submit
action (`pages/nuevo-producto.js:31`). That hook is not part of this model,
so nothing here states what happens to the result.

- `url_pattern.dfy`, module `UrlPattern`: the single fixed regular expression
  `^(ftp|http|https):\/\/[^ "]+$` is written out as a string predicate,
  `Matches`. It tries the three scheme alternatives, requires the `://`
  separator, and then scans the rest one character at a time against the
  class `[^ "]`. The module also gives a declarative description of the
  pattern's language, `InLanguage`, and proves the two agree. The pattern
  has no flags. So it is case-sensitive, it anchors at the ends of the whole
  input, and its character class admits line breaks.
- `validacion.dfy`, module `Validacion`: the validator itself.
  `ValidarCrearProducto` is an imperative method shaped like the source. It
  starts from an empty map and adds one entry per failed check. The URL
  format is checked only in the `else` branch of the empty-URL check. The
  method is proved equal to `Errores`, a reference definition in which each
  field, taken on its own, contributes its message under its key. The
  lemmas about `Errores` state the validator's promises: which key appears
  for which input, with which exact message; the keys that can occur; that
  each field's entry depends only on that field's value; and when the result
  is empty.

The source treats a field as missing when its value is falsy in JavaScript.
The form state starts with every field set to `''`
(`pages/nuevo-producto.js:16-22`) and holds strings only. Of the values a form
field can hold here, only the empty string is falsy. So the model takes four
strings, and "missing" means the empty string. A value made of spaces is
present.

## Model

| member | source | states |
|---|---|---|
| `UrlPattern.Allowed` | validacion/validarCrearProducto.js:18 | The class `[^ "]`: any character other than a space and a double quote. Its use over a whole string is characterised by `ScanAllowed`. |
| `UrlPattern.MatchesWith` | validacion/validarCrearProducto.js:18 | The pattern with its group fixed to one alternative. At most one alternative can apply, by `PrefixesExclusive`. |
| `UrlPattern.Matches` | validacion/validarCrearProducto.js:18 | The `.test` of the fixed pattern. It accepts exactly the strings of `InLanguage`, by `MatchesIffInLanguage`; it rejects exactly for the three reasons of `RejectionHasReason`. |
| `UrlPattern.ScanAllowed` | validacion/validarCrearProducto.js:18 | The scan of the repetition `[^ "]` up to the end of input succeeds exactly when no character of the string is a space or a double quote. |
| `UrlPattern.Split` | validacion/validarCrearProducto.js:18 | Any URL the pattern accepts breaks into one of `ftp`, `http`, `https`, then `://`, then a non-empty rest with no space or double quote. |
| `UrlPattern.MatchesIsSound` | validacion/validarCrearProducto.js:18 | Every string the pattern accepts belongs to the language "scheme, `://`, one or more characters other than space and double quote". |
| `UrlPattern.MatchesIsComplete` | validacion/validarCrearProducto.js:18 | The pattern accepts every scheme followed by `://` and a non-empty rest free of spaces and double quotes. |
| `UrlPattern.MatchesIffInLanguage` | validacion/validarCrearProducto.js:18 | The pattern accepts a string if and only if the string is in that language. |
| `UrlPattern.RejectionReasons` | validacion/validarCrearProducto.js:18 | The pattern rejects a bare `scheme://` with nothing after it. It rejects a string with a space or a double quote after the separator. It rejects a string that starts with none of `ftp://`, `http://`, `https://`. |
| `UrlPattern.RejectionHasReason` | validacion/validarCrearProducto.js:18 | A string fails the pattern if and only if it starts with none of `ftp://`, `http://`, `https://`, or is one of them with nothing after it, or has a space or a double quote after it. |
| `UrlPattern.PrefixesExclusive` | validacion/validarCrearProducto.js:18 | At most one of `ftp://`, `http://`, `https://` can start a given string, so at most one alternative of the group applies. |
| `UrlPattern.MatchedUrlShape` | validacion/validarCrearProducto.js:18 | A URL the pattern accepts has no space or double quote anywhere and is at least seven characters long. |
| `UrlPattern.Ejemplos` | validacion/validarCrearProducto.js:18 | `ftp://x` and a URL with a line break after the separator match. `http://`, `HTTP://x`, `https:/x` and `https://a b` do not. |
| `Validacion.Mensaje` | validacion/validarCrearProducto.js:6-25 | One field's own check: the "missing" message for an empty value, "URL no válida" for a present URL the pattern rejects, none otherwise. Its place in the result is stated by `EntradaDeCampo`. |
| `Validacion.Errores` | validacion/validarCrearProducto.js:3-27 | The reference result: each field contributes its `Mensaje` under its key. The method is proved equal to it; its properties are stated by the lemmas below. |
| `Validacion.ValidarCrearProducto` | validacion/validarCrearProducto.js:2-28 | The map the validator builds by conditional assignments equals the reference result `Errores`, entry for entry. |
| `Validacion.ResultadoUnico` | validacion/validarCrearProducto.js:3-27 | The result is determined by its entries: a map whose keys are field names, and which holds each field's own entry, is the validator's result. |
| `Validacion.EntradaDeCampo` | validacion/validarCrearProducto.js:6-25 | A field's key is in the result exactly when that field fails its own check, and then it holds that check's message. |
| `Validacion.ErrorNombre` | validacion/validarCrearProducto.js:6-8 | `nombre` is a key exactly when `nombre` is empty, and it then maps to "El Nombre es obligatorio". |
| `Validacion.ErrorEmpresa` | validacion/validarCrearProducto.js:11-13 | `empresa` is a key exactly when `empresa` is empty, and it then maps to "Nombre de Empresa es obligatorio". |
| `Validacion.ErrorUrl` | validacion/validarCrearProducto.js:16-20 | An empty `url` maps to "La URL del producto es obligatoria", never to the format message. A non-empty `url` is a key exactly when the pattern rejects it, and it then maps to "URL no válida". |
| `Validacion.ErrorDescripcion` | validacion/validarCrearProducto.js:23-25 | `descripcion` is a key exactly when `descripcion` is empty, and it then maps to "Agrega una descripcion de tu producto". |
| `Validacion.ClavesPosibles` | validacion/validarCrearProducto.js:3-27 | The keys of the result are always among `nombre`, `empresa`, `url`, `descripcion`; `imagen` never appears. |
| `Validacion.CampoIndependiente` | validacion/validarCrearProducto.js:6-25 | Two forms that agree on one field get the same entry for that field, presence and message, whatever the other fields hold. |
| `Validacion.SinErroresSiiValido` | validacion/validarCrearProducto.js:3-27 | The result is empty if and only if all four fields are non-empty and the URL matches the pattern. |
| `Validacion.UrlAceptadaSiiEnLenguaje` | validacion/validarCrearProducto.js:16-20 | There is no `url` entry exactly when the URL belongs to the pattern's language. The empty URL does not belong to it. |
| `Validacion.EjemploAceptado` | validacion/validarCrearProducto.js:6-8 | A form whose name is a single space, with the other fields filled in and an `https` URL, gets no errors. |
| `Validacion.EjemploVacio` | validacion/validarCrearProducto.js:3-27 | A form with all four fields empty gets exactly the four "missing" messages. |

## Left out

- Falsy values other than the empty string (`undefined`, `null`) are not modelled. The form always supplies strings, so the fields are plain strings here.
- The regular-expression engine in general is not modelled. Only the one fixed pattern is encoded, as a predicate over characters.
- JavaScript strings are sequences of UTF-16 code units, and the model's strings are sequences of Unicode characters. The pattern gives the same verdict either way, because a surrogate pair is never a space or a double quote.
- `pages/nuevo-producto.js`, `pages/productos/[id].js`, `hooks/useProductos.js`, `firebase/firebase.js` and `components/layout/*.js` are not part of this model. They are React rendering and direct calls into the Firebase Auth, Firestore and Storage services. The model contains no such I/O.
- The `useValidacion` hook that calls the validator is not part of this model.
