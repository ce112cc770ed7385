/**
 Anonymised candidate records, as core/utils.py and aqchat.py build them before they are
 appended to the candidate log. The salted digest `_hash` is a parameter `h` applied to
 `salt + value`; the creation timestamp is a parameter `now`.
 */
module Anonymize {
  import opened Base
  import opened Json
  import opened Candidate

  /** The raw personal fields core/utils.py keeps next to their digests. */
  datatype Pii = Pii(name: string, email: string, phone: string)

  /** A saved record. `raw` holds the plain PII when the record keeps it, and `optional` the
      fresher and experience fields copied from the candidate (no other field is set in it). */
  datatype Saved = Saved(
    id: string, raw: Option<Pii>,
    nameHash: string, emailHash: string, phoneHash: string,
    yearsExp: Json, desiredPositions: Json, location: Json, techStack: Json,
    createdAt: string,
    optional: Dict)

  /** `_hash(value)`: the digest of the salted value. */
  function Digest(h: string -> string, salt: string, value: string): (d: string) {
    h(salt + value)
  }

  /** The PII fields hold strings whenever present, so `email + phone` concatenates text. */
  predicate PiiAreStrings(c: Dict) {
    (c.name.Some? ==> c.name.value.JStr?) && (c.email.Some? ==> c.email.value.JStr?)
    && (c.phone.Some? ==> c.phone.value.JStr?)
  }

  /** `candidate.get(f, "")` for a PII field. */
  function Text(c: Dict, f: Key): string
    requires PiiAreStrings(c) && IsPii(f)
  {
    match Lookup(c, f)
    case Some(v) => v.s
    case None => ""
  }

  /** The value a saved record holds under key `k`, or None when the key is absent: the record
      as the dict that is written to the log. */
  function Entry(r: Saved, k: Key): Option<Json> {
    match k
    case Id => Some(JStr(r.id))
    case Name => if r.raw.Some? then Some(JStr(r.raw.value.name)) else None
    case Email => if r.raw.Some? then Some(JStr(r.raw.value.email)) else None
    case Phone => if r.raw.Some? then Some(JStr(r.raw.value.phone)) else None
    case NameHash => Some(JStr(r.nameHash))
    case EmailHash => Some(JStr(r.emailHash))
    case PhoneHash => Some(JStr(r.phoneHash))
    case YearsExp => Some(r.yearsExp)
    case DesiredPositions => Some(r.desiredPositions)
    case Location => Some(r.location)
    case TechStack => Some(r.techStack)
    case CreatedAt => Some(JStr(r.createdAt))
    case _ => Lookup(r.optional, k)
  }

  /** The entries both variants write: identifier, digests and the non-personal fields. */
  function Hashed(c: Dict, h: string -> string, salt: string, now: string, raw: Option<Pii>,
                  optional: Dict): Saved
    requires PiiAreStrings(c)
  {
    Saved(
      Digest(h, salt, Text(c, Email) + Text(c, Phone)), raw,
      Digest(h, salt, Text(c, Name)), Digest(h, salt, Text(c, Email)), Digest(h, salt, Text(c, Phone)),
      GetField(c, YearsExp, JNull), GetField(c, DesiredPositions, JNull), GetField(c, Location, JNull),
      GetField(c, TechStack, JArr([])),
      now + "Z",
      optional)
  }

  /** The two copy loops: the fresher and experience fields the candidate has. */
  function Optional(c: Dict): Dict {
    Empty.(degree := c.degree, domain := c.domain, cgpa := c.cgpa, marks12th := c.marks12th,
           marks10th := c.marks10th, lastCompany := c.lastCompany, yearsInCompany := c.yearsInCompany,
           positionInCompany := c.positionInCompany)
  }

  /** `anonymize_candidate` of core/utils.py: identifiers, digests, the raw PII, and every
      fresher or experience field the candidate has, unchanged. */
  function AnonymizeCore(c: Dict, h: string -> string, salt: string, now: string): (r: Saved)
    requires PiiAreStrings(c)
    ensures r.raw == Some(Pii(Text(c, Name), Text(c, Email), Text(c, Phone)))
    ensures r.id == h(salt + (r.raw.value.email + r.raw.value.phone))
    ensures r.nameHash == h(salt + r.raw.value.name) && r.emailHash == h(salt + r.raw.value.email)
            && r.phoneHash == h(salt + r.raw.value.phone)
    ensures r.optional == c.(name := None, email := None, phone := None, yearsExp := None,
                             desiredPositions := None, location := None, techStack := None,
                             linkedin := None, github := None, preferredLocation := None,
                             techStackRaw := None)
  {
    Hashed(c, h, salt, now, Some(Pii(Text(c, Name), Text(c, Email), Text(c, Phone))), Optional(c))
  }

  /** `anonymize_candidate` of aqchat.py: identifiers, digests and the non-personal fields only. */
  function AnonymizeAq(c: Dict, h: string -> string, salt: string, now: string): (r: Saved)
    requires PiiAreStrings(c)
    ensures r.raw.None? && r.optional == Empty
    ensures r.id == h(salt + (Text(c, Email) + Text(c, Phone)))
  {
    Hashed(c, h, salt, now, None, Empty)
  }

  /** The keys of an aqchat.py record. */
  predicate IsAqKey(k: Key) {
    k.Id? || k.NameHash? || k.EmailHash? || k.PhoneHash? || k.YearsExp? || k.DesiredPositions?
    || k.Location? || k.TechStack? || k.CreatedAt?
  }

  /** The fixed keys of a core/utils.py record: the nine of aqchat.py and the raw PII; never the
      links, the preferred location or the raw tech-stack text. */
  lemma CoreKeys(c: Dict, h: string -> string, salt: string, now: string, k: Key)
    requires PiiAreStrings(c) && !IsOptionalField(k)
    ensures Entry(AnonymizeCore(c, h, salt, now), k).Some? <==> IsAqKey(k) || IsPii(k)
  {
  }

  /** A fresher or experience field is in a core/utils.py record exactly when the candidate has
      it, with the candidate's value. */
  lemma CoreOptionalKeys(c: Dict, h: string -> string, salt: string, now: string, k: Key)
    requires PiiAreStrings(c) && IsOptionalField(k)
    ensures Entry(AnonymizeCore(c, h, salt, now), k) == Lookup(c, k)
  {
  }

  /** The keys of an aqchat.py record: exactly nine, none of them raw PII. */
  lemma AqKeys(c: Dict, h: string -> string, salt: string, now: string, k: Key)
    requires PiiAreStrings(c)
    ensures Entry(AnonymizeAq(c, h, salt, now), k).Some? <==> IsAqKey(k)
  {
  }

  /** Both variants copy `years_exp`, `desired_positions` and `location` unchanged (None when the
      candidate lacks them) and stamp the record with the clock reading plus "Z". */
  lemma PassThrough(c: Dict, h: string -> string, salt: string, now: string, k: Key)
    requires PiiAreStrings(c) && (k.YearsExp? || k.DesiredPositions? || k.Location?)
    ensures Entry(AnonymizeCore(c, h, salt, now), k) == Some(GetField(c, k, JNull))
    ensures Entry(AnonymizeAq(c, h, salt, now), k) == Some(GetField(c, k, JNull))
    ensures Entry(AnonymizeCore(c, h, salt, now), CreatedAt) == Some(JStr(now + "Z"))
    ensures Entry(AnonymizeAq(c, h, salt, now), CreatedAt) == Some(JStr(now + "Z"))
  {
  }

  /** A candidate without `tech_stack` is saved with an empty list, one with it keeps its value. */
  lemma TechStackDefault(c: Dict, h: string -> string, salt: string, now: string)
    requires PiiAreStrings(c)
    ensures Entry(AnonymizeCore(c, h, salt, now), TechStack)
            == Some(if c.techStack.Some? then c.techStack.value else JArr([]))
    ensures Entry(AnonymizeAq(c, h, salt, now), TechStack) == Entry(AnonymizeCore(c, h, salt, now), TechStack)
  {
  }

  /** The aqchat.py record is the core/utils.py record without the raw PII and the optional
      fields. */
  lemma AqIsCoreWithoutPiiAndOptional(c: Dict, h: string -> string, salt: string, now: string)
    requires PiiAreStrings(c)
    ensures AnonymizeAq(c, h, salt, now) == AnonymizeCore(c, h, salt, now).(raw := None, optional := Empty)
  {
  }

  /** Two candidates with the same PII get the same identifier and digests, whatever else differs. */
  lemma DigestsDependOnlyOnPii(c: Dict, d: Dict, h: string -> string, salt: string, now: string)
    requires PiiAreStrings(c) && PiiAreStrings(d)
    requires Text(c, Name) == Text(d, Name) && Text(c, Email) == Text(d, Email) && Text(c, Phone) == Text(d, Phone)
    ensures var rc, rd := AnonymizeCore(c, h, salt, now), AnonymizeCore(d, h, salt, now);
            rc.id == rd.id && rc.nameHash == rd.nameHash && rc.emailHash == rd.emailHash && rc.phoneHash == rd.phoneHash
  {
  }

  /** The links, the preferred location and the raw tech-stack text reach no record. */
  predicate IsUnlisted(k: Key) {
    k.Linkedin? || k.Github? || k.PreferredLocation? || k.TechStackRaw?
  }

  /** Changing the unlisted fields of a candidate changes neither variant's record. */
  lemma UnlistedFieldsIgnored(c: Dict, linkedin: Option<Json>, github: Option<Json>,
                              preferred: Option<Json>, raw: Option<Json>,
                              h: string -> string, salt: string, now: string)
    requires PiiAreStrings(c)
    ensures var d := c.(linkedin := linkedin, github := github, preferredLocation := preferred, techStackRaw := raw);
            PiiAreStrings(d)
            && AnonymizeCore(d, h, salt, now) == AnonymizeCore(c, h, salt, now)
            && AnonymizeAq(d, h, salt, now) == AnonymizeAq(c, h, salt, now)
  {
    var d := c.(linkedin := linkedin, github := github, preferredLocation := preferred, techStackRaw := raw);
    assert Text(d, Name) == Text(c, Name) && Text(d, Email) == Text(c, Email) && Text(d, Phone) == Text(c, Phone);
    assert Optional(d) == Optional(c);
  }
}
