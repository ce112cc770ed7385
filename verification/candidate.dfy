/**
 The candidate dict and the keys of the anonymised record share one key space: the field
 names the source writes. A candidate dict holds a subset of the candidate fields; it is
 modelled as one optional value per field, `None` where the dict has no such key.
 */
module Candidate {
  import opened Base
  import opened Json

  datatype Key =
    // entered on the form
    | Name | Email | Phone | YearsExp | DesiredPositions | Location | TechStack
    | Linkedin | Github | PreferredLocation | TechStackRaw
    // fresher branch
    | Degree | Domain | Cgpa | Marks12th | Marks10th
    // experience branch
    | LastCompany | YearsInCompany | PositionInCompany
    // added by anonymisation
    | Id | NameHash | EmailHash | PhoneHash | CreatedAt

  /** The dict key each field is stored under. */
  function Wire(k: Key): string {
    match k
    case Name => "name"
    case Email => "email"
    case Phone => "phone"
    case YearsExp => "years_exp"
    case DesiredPositions => "desired_positions"
    case Location => "location"
    case TechStack => "tech_stack"
    case Linkedin => "linkedin"
    case Github => "github"
    case PreferredLocation => "preferred_location"
    case TechStackRaw => "tech_stack_raw"
    case Degree => "degree"
    case Domain => "domain"
    case Cgpa => "cgpa"
    case Marks12th => "marks_12th"
    case Marks10th => "marks_10th"
    case LastCompany => "last_company"
    case YearsInCompany => "years_in_company"
    case PositionInCompany => "position_in_company"
    case Id => "id"
    case NameHash => "name_hash"
    case EmailHash => "email_hash"
    case PhoneHash => "phone_hash"
    case CreatedAt => "created_at"
  }

  /** A candidate dict: each candidate field present with its value, or absent. */
  datatype Dict = Dict(
    name: Option<Json>, email: Option<Json>, phone: Option<Json>, yearsExp: Option<Json>,
    desiredPositions: Option<Json>, location: Option<Json>, techStack: Option<Json>,
    linkedin: Option<Json>, github: Option<Json>, preferredLocation: Option<Json>,
    techStackRaw: Option<Json>,
    degree: Option<Json>, domain: Option<Json>, cgpa: Option<Json>,
    marks12th: Option<Json>, marks10th: Option<Json>,
    lastCompany: Option<Json>, yearsInCompany: Option<Json>, positionInCompany: Option<Json>)

  /** `{}`. */
  const Empty: Dict :=
    Dict(None, None, None, None, None, None, None, None, None, None, None,
         None, None, None, None, None, None, None, None)

  /** `d[key]` when `key in d`, None otherwise. The identifier and digest keys are never in a
      candidate dict. */
  function Lookup(c: Dict, k: Key): Option<Json> {
    match k
    case Name => c.name
    case Email => c.email
    case Phone => c.phone
    case YearsExp => c.yearsExp
    case DesiredPositions => c.desiredPositions
    case Location => c.location
    case TechStack => c.techStack
    case Linkedin => c.linkedin
    case Github => c.github
    case PreferredLocation => c.preferredLocation
    case TechStackRaw => c.techStackRaw
    case Degree => c.degree
    case Domain => c.domain
    case Cgpa => c.cgpa
    case Marks12th => c.marks12th
    case Marks10th => c.marks10th
    case LastCompany => c.lastCompany
    case YearsInCompany => c.yearsInCompany
    case PositionInCompany => c.positionInCompany
    case _ => None
  }

  /** `d.get(key, default)`. */
  function GetField(c: Dict, k: Key, default: Json): (r: Json)
    ensures Lookup(c, k).Some? ==> r == Lookup(c, k).value
    ensures Lookup(c, k).None? ==> r == default
  {
    match Lookup(c, k)
    case Some(v) => v
    case None => default
  }

  /** The raw personal fields. */
  predicate IsPii(k: Key) {
    k.Name? || k.Email? || k.Phone?
  }

  /** The fields only a fresher (`years_exp == 0`) fills in. */
  predicate IsFresherField(k: Key) {
    k.Degree? || k.Domain? || k.Cgpa? || k.Marks12th? || k.Marks10th?
  }

  /** The fields only an experienced candidate fills in. */
  predicate IsExperienceField(k: Key) {
    k.LastCompany? || k.YearsInCompany? || k.PositionInCompany?
  }

  /** The fields an anonymised record copies only when the candidate has them. */
  predicate IsOptionalField(k: Key) {
    IsFresherField(k) || IsExperienceField(k)
  }
}
