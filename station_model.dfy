/**
 * The station model: the payload schema `stationDAO` and the document's
 * pre-save hook, which derives a slug from the name when none is set.
 */
module StationModel {
  import opened Wrappers

  // ---------------------------------------------------------------------
  // Payload schema
  // ---------------------------------------------------------------------

  /** `location`: an object with an optional region number and an optional coordinate array. */
  datatype Location = Location(region: Option<int>, coordinates: Option<seq<int>>)

  /**
   * The `location` of a request body: absent, `null`, or an object. The
   * schema casts an absent object to its built-out shape, so only `null`
   * fails `.required()`.
   */
  datatype LocationField = LocationAbsent | LocationNull | LocationGiven(given: Location)

  /** A station payload as the schema sees it: every field may be absent. */
  datatype StationPayload = StationPayload(
    name: Option<string>,
    description: Option<string>,
    icon: Option<string>,
    category: Option<string>,
    slug: Option<string>,
    createdBy: Option<string>,
    createdAt: Option<string>,
    updatedAt: Option<string>,
    location: LocationField)

  /** `string().required()`: present and not empty. */
  predicate Present(f: Option<string>)
  {
    f.Some? && f.value != ""
  }

  /** The required fields of the schema, in declaration order. */
  const RequiredFields: seq<string> := ["name", "description", "icon", "category", "createdBy", "location"]

  /** The schema's acceptance condition, stated field by field. */
  predicate Accepted(p: StationPayload)
  {
    && Present(p.name)
    && Present(p.description)
    && Present(p.icon)
    && Present(p.category)
    && Present(p.createdBy)
    && !p.location.LocationNull?
  }

  /**
   * `stationDAO.validate`: the path of the first missing required field,
   * or `None`. Slug, createdAt and updatedAt never cause a rejection.
   */
  function MissingField(p: StationPayload): (r: Option<string>)
    ensures r.None? <==> Accepted(p)
    ensures r.Some? ==> r.value in RequiredFields
    ensures r == Some("name") <==> !Present(p.name)
    ensures r == Some("location") <==> Present(p.name) && Present(p.description) && Present(p.icon)
                                       && Present(p.category) && Present(p.createdBy) && p.location.LocationNull?
    ensures p.location.LocationAbsent? ==> r != Some("location")
  {
    if !Present(p.name) then Some("name")
    else if !Present(p.description) then Some("description")
    else if !Present(p.icon) then Some("icon")
    else if !Present(p.category) then Some("category")
    else if !Present(p.createdBy) then Some("createdBy")
    else if p.location.LocationNull? then Some("location")
    else None
  }

  /** Slug, createdAt and updatedAt are optional: whatever they hold, the verdict is the same. */
  lemma OptionalFieldsIgnored(p: StationPayload, slug: Option<string>, createdAt: Option<string>, updatedAt: Option<string>)
    ensures MissingField(p.(slug := slug, createdAt := createdAt, updatedAt := updatedAt)) == MissingField(p)
  {
  }

  /** The library's message for a missing required field. */
  function RequiredMessage(path: string): string
  {
    path + " is a required field"
  }

  // ---------------------------------------------------------------------
  // Slug derivation: name.split(" ").join("-").toLowerCase()
  // ---------------------------------------------------------------------

  /** `s.split(sep)` for a one-character separator: one more piece than separators, empty pieces kept. */
  function Split(s: string, sep: char): (parts: seq<string>)
    ensures |parts| >= 1
    ensures forall i :: 0 <= i < |parts| ==> sep !in parts[i]
  {
    if s == [] then [[]]
    else
      var rest := Split(s[1..], sep);
      if s[0] == sep then [[]] + rest
      else [[s[0]] + rest[0]] + rest[1..]
  }

  /** `parts.join(sep)`. */
  function Join(parts: seq<string>, sep: char): string
  {
    if |parts| == 0 then []
    else if |parts| == 1 then parts[0]
    else parts[0] + [sep] + Join(parts[1..], sep)
  }

  /** Every `from` replaced by `to`, position by position. */
  function ReplaceChar(s: string, from: char, to: char): (r: string)
    ensures |r| == |s|
    ensures forall i :: 0 <= i < |s| ==> r[i] == if s[i] == from then to else s[i]
  {
    if s == [] then [] else [if s[0] == from then to else s[0]] + ReplaceChar(s[1..], from, to)
  }

  /** Splitting on a character and joining with another replaces the one by the other. */
  lemma {:induction false} JoinSplitReplaces(s: string, sep: char, glue: char)
    ensures Join(Split(s, sep), glue) == ReplaceChar(s, sep, glue)
  {
    if s != [] {
      var rest := Split(s[1..], sep);
      JoinSplitReplaces(s[1..], sep, glue);
      if s[0] == sep {
        assert ([[]] + rest)[1..] == rest;
      } else if |rest| > 1 {
        assert ([[s[0]] + rest[0]] + rest[1..])[1..] == rest[1..];
        assert Join(rest, glue) == rest[0] + [glue] + Join(rest[1..], glue);
      }
    }
  }

  /** `toLowerCase` on one character (ASCII letters; others are unchanged here). */
  function LowerChar(c: char): (d: char)
    ensures 'A' <= c <= 'Z' ==> 'a' <= d <= 'z'
    ensures !('A' <= c <= 'Z') ==> d == c
  {
    if 'A' <= c <= 'Z' then (c as int + 32) as char else c
  }

  /** `s.toLowerCase()`. */
  function ToLower(s: string): (r: string)
    ensures |r| == |s|
    ensures forall i :: 0 <= i < |s| ==> r[i] == LowerChar(s[i])
  {
    if s == [] then [] else [LowerChar(s[0])] + ToLower(s[1..])
  }

  /** The derived slug, computed the way the hook computes it. */
  function Slugify(name: string): string
  {
    ToLower(Join(Split(name, ' '), '-'))
  }

  /**
   * The slug is the name, character by character: a space becomes `-`,
   * an upper-case letter its lower-case form. So consecutive spaces give
   * consecutive hyphens, no space remains, and nothing is trimmed.
   */
  lemma SlugifyPointwise(name: string)
    ensures |Slugify(name)| == |name|
    ensures forall i :: 0 <= i < |name| ==>
              Slugify(name)[i] == if name[i] == ' ' then '-' else LowerChar(name[i])
    ensures ' ' !in Slugify(name)
  {
    JoinSplitReplaces(name, ' ', '-');
  }

  /** Deriving a slug from a slug changes nothing. */
  lemma SlugifyIdempotent(name: string)
    ensures Slugify(Slugify(name)) == Slugify(name)
  {
    var s := Slugify(name);
    SlugifyPointwise(name);
    SlugifyPointwise(s);
  }

  /** What the pre-save hook leaves in `slug` (`!this.slug` holds for an absent or empty slug). */
  function HookSlug(slug: string, name: string): string
  {
    if slug == "" then Slugify(name) else slug
  }

  /** A slug that is already set is kept. */
  lemma HookKeepsSetSlug(slug: string, name: string)
    requires slug != ""
    ensures HookSlug(slug, name) == slug
  {
  }

  /** Running the hook a second time gives the same slug as running it once. */
  lemma HookIdempotent(slug: string, name: string)
    ensures HookSlug(HookSlug(slug, name), name) == HookSlug(slug, name)
  {
    if slug == "" {
      SlugifyPointwise(name);
    }
  }

  /** An empty slug with a non-empty name gets a non-empty slug with no space in it. */
  lemma HookDerivesSpaceFreeSlug(name: string)
    requires name != ""
    ensures HookSlug("", name) != "" && ' ' !in HookSlug("", name)
  {
    SlugifyPointwise(name);
  }

  // ---------------------------------------------------------------------
  // The stored document
  // ---------------------------------------------------------------------

  /** A station as stored. */
  datatype StationRecord = StationRecord(
    name: string,
    description: string,
    icon: string,
    category: string,
    slug: string,
    createdBy: string,
    location: Option<Location>,   // None: the body had no `location`
    createdAt: int)

  /** A station document before and during save; the hook assigns its `slug` in place. */
  class StationDocument {
    var name: string
    var description: string
    var icon: string
    var category: string
    var slug: string        // "" when unset
    var createdBy: string
    var location: Option<Location>
    var createdAt: int

    /** A document built from an accepted payload, stamped with the save time. */
    constructor (p: StationPayload, now: int)
      requires Accepted(p)
      ensures name == p.name.value && description == p.description.value
      ensures icon == p.icon.value && category == p.category.value
      ensures slug == p.slug.GetOr("") && createdBy == p.createdBy.value
      ensures location == (if p.location.LocationGiven? then Some(p.location.given) else None)
      ensures createdAt == now
    {
      name := p.name.value;
      description := p.description.value;
      icon := p.icon.value;
      category := p.category.value;
      slug := p.slug.GetOr("");
      createdBy := p.createdBy.value;
      location := if p.location.LocationGiven? then Some(p.location.given) else None;
      createdAt := now;
    }

    /** `pre("save")`: fill an unset slug from the name; no other field changes. */
    method PreSave()
      modifies this`slug
      ensures slug == HookSlug(old(slug), name)
    {
      if slug == "" {
        slug := Slugify(name);
      }
    }

    /** The value the store keeps. */
    function Record(): (r: StationRecord)
      reads this
    {
      StationRecord(name, description, icon, category, slug, createdBy, location, createdAt)
    }
  }
}
