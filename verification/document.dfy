/** A document record of the dashboard and the form fields that edit it. */
module Document {
  import opened Text

  /** One card of the dashboard: a title, a description and an optional image
      link (an empty string when there is none). */
  datatype Doc = Doc(title: string, description: string, imageUrl: string)

  /** The `name` attribute of the three form inputs. */
  datatype Field = Title | Description | ImageUrl

  /** The all-empty record every draft starts from and is reset to. */
  const Empty: Doc := Doc("", "", "")

  function Get(d: Doc, f: Field): (v: string) {
    match f
    case Title => d.title
    case Description => d.description
    case ImageUrl => d.imageUrl
  }

  /** `{ ...prev, [name]: value }`: the named field takes the new value and
      the other two are copied over. */
  function Set(d: Doc, f: Field, v: string): (r: Doc)
    ensures Get(r, f) == v
    ensures forall g :: g != f ==> Get(r, g) == Get(d, g)
  {
    match f
    case Title => d.(title := v)
    case Description => d.(description := v)
    case ImageUrl => d.(imageUrl := v)
  }

  /** The guard shared by Add and Update: neither `title.trim()` nor
      `description.trim()` is the (falsy) empty string. The image link is
      never checked. */
  predicate Submittable(d: Doc) {
    Trim(d.title) != [] && Trim(d.description) != []
  }
}
