/** A user's profile: the default one created when an account is first
    saved, the completeness check, the active-time summary and the partial
    update. Durations are whole microseconds, the unit the duration field
    stores. */
module Profiles {
  import opened Common
  import opened Http

  datatype Profile = Profile(name: string, address: string, phone: string, activeTime: int)

  // ---------------------------------------------------------------------
  // The default profile

  /** `email.split('@')[0]`: everything before the first `@`, or the whole
      address when it has none. */
  function BeforeAt(email: string): (r: string)
    ensures r <= email
    ensures '@' !in r
    ensures |r| < |email| ==> email[|r|] == '@'
  {
    if |email| == 0 || email[0] == '@' then [] else [email[0]] + BeforeAt(email[1..])
  }

  /** The three facts above pin the prefix down: no other prefix has them. */
  lemma BeforeAtIsUnique(email: string, r: string)
    requires r <= email && '@' !in r && (|r| < |email| ==> email[|r|] == '@')
    ensures r == BeforeAt(email)
  {
  }

  lemma BeforeAtWithoutAt(email: string)
    requires '@' !in email
    ensures BeforeAt(email) == email
  {
  }

  function DefaultProfile(email: string): (p: Profile)
    ensures p.name <= email && '@' !in p.name
    ensures |p.name| < |email| ==> email[|p.name|] == '@'
    ensures p.address == "" && p.phone == "" && p.activeTime == 0
  {
    Profile(BeforeAt(email), "", "", 0)
  }

  /** The post-save handler: a profile is made only for a newly created
      account; later saves of the same account make none. */
  function ProfileOnSave(email: string, created: bool): (r: Option<Profile>)
    ensures r.Some? <==> created
    ensures r.Some? ==> r.value == DefaultProfile(email)
  {
    if created then Some(DefaultProfile(email)) else None
  }

  // ---------------------------------------------------------------------
  // Completeness

  /** A character Python's `str.isspace` accepts. */
  predicate PyIsSpace(c: char) {
    || ('\t' <= c <= '\r') || ('\U{001C}' <= c <= '\U{001F}') || c == ' '
    || c == '\U{0085}' || c == '\U{00A0}' || c == '\U{1680}' || ('\U{2000}' <= c <= '\U{200A}')
    || c == '\U{2028}' || c == '\U{2029}' || c == '\U{202F}' || c == '\U{205F}' || c == '\U{3000}'
  }

  /** Some character of `s` is not white space. */
  ghost predicate HasVisible(s: string) {
    exists k :: 0 <= k < |s| && !PyIsSpace(s[k])
  }

  /** The index of the first non-space character at or after `i`, or `|s|`. */
  function SkipSpaces(s: string, i: nat): (j: nat)
    requires i <= |s|
    ensures i <= j <= |s|
    ensures forall k :: i <= k < j ==> PyIsSpace(s[k])
    ensures j < |s| ==> !PyIsSpace(s[j])
    decreases |s| - i
  {
    if i == |s| || !PyIsSpace(s[i]) then i else SkipSpaces(s, i + 1)
  }

  /** The end of `s[..j]` once its trailing white space is dropped. */
  function SkipSpacesBack(s: string, j: nat): (i: nat)
    requires j <= |s|
    ensures i <= j
    ensures forall k :: i <= k < j ==> PyIsSpace(s[k])
    ensures i > 0 ==> !PyIsSpace(s[i - 1])
  {
    if j == 0 || !PyIsSpace(s[j - 1]) then j else SkipSpacesBack(s, j - 1)
  }

  /** `s.strip()`: the slice between the leading and the trailing white
      space. It is empty exactly when `s` is blank. */
  function Strip(s: string): (r: string)
    ensures |r| > 0 <==> HasVisible(s)
    ensures exists i, j ::
      && 0 <= i <= j <= |s| && r == s[i..j]
      && (forall k :: 0 <= k < i ==> PyIsSpace(s[k]))
      && (forall k :: j <= k < |s| ==> PyIsSpace(s[k]))
    ensures |r| > 0 ==> !PyIsSpace(r[0]) && !PyIsSpace(r[|r| - 1])
  {
    var i := SkipSpaces(s, 0);
    var j := SkipSpacesBack(s, |s|);
    if i <= j then
      assert i < j ==> !PyIsSpace(s[i]);
      s[i..j]
    else
      assert forall k :: 0 <= k < |s| ==> PyIsSpace(s[k]);
      assert s[0..0] == [];
      []
  }

  /** `all([name.strip(), address.strip(), phone.strip()])`. */
  predicate ProfileComplete(p: Profile) {
    |Strip(p.name)| > 0 && |Strip(p.address)| > 0 && |Strip(p.phone)| > 0
  }

  /** A profile is complete exactly when each of its three fields has a
      character that is not white space. */
  lemma CompleteIffNoBlankField(p: Profile)
    ensures ProfileComplete(p) <==> HasVisible(p.name) && HasVisible(p.address) && HasVisible(p.phone)
  {
  }

  /** A freshly made default profile is never complete: its address and
      phone are empty. */
  lemma DefaultProfileIsIncomplete(email: string)
    ensures !ProfileComplete(DefaultProfile(email))
  {
    assert |Strip(DefaultProfile(email).address)| == 0;
  }

  // ---------------------------------------------------------------------
  // Active time

  const MicrosPerSecond := 1_000_000
  const SecondsPerHour := 3600
  const SecondsPerMinute := 60

  /** `int(d.total_seconds())`: the whole seconds of a duration, truncated
      toward zero (a negative duration rounds up). */
  function WholeSeconds(us: int): (s: int)
    ensures us >= 0 ==> s >= 0 && s * MicrosPerSecond <= us < (s + 1) * MicrosPerSecond
    ensures us < 0 ==> s <= 0 && (s - 1) * MicrosPerSecond < us <= s * MicrosPerSecond
  {
    if us >= 0 then us / MicrosPerSecond else -((-us) / MicrosPerSecond)
  }

  datatype HoursMinutes = HoursMinutes(hours: int, minutes: int)

  /** Python's `s // 3600` and `(s % 3600) // 60`; with a positive divisor
      these floor, as Dafny's division does. */
  function Split(s: int): (r: HoursMinutes)
    ensures 0 <= r.minutes < 60
    ensures r.hours * SecondsPerHour + r.minutes * SecondsPerMinute <= s
    ensures s < r.hours * SecondsPerHour + r.minutes * SecondsPerMinute + SecondsPerMinute
  {
    HoursMinutes(s / SecondsPerHour, (s % SecondsPerHour) / SecondsPerMinute)
  }

  /** The bounds `Split` ensures have one solution only, so they describe
      the split completely. */
  lemma SplitIsUnique(s: int, h: int, m: int)
    requires 0 <= m < 60
    requires h * SecondsPerHour + m * SecondsPerMinute <= s < h * SecondsPerHour + m * SecondsPerMinute + SecondsPerMinute
    ensures Split(s) == HoursMinutes(h, m)
  {
  }

  /** The hours and minutes the active-time view reports for a profile. */
  function ActiveTime(p: Profile): (r: HoursMinutes)
    ensures 0 <= r.minutes < 60
    ensures p.activeTime >= 0 ==> r.hours >= 0
    ensures p.activeTime >= 0 ==>
      (r.hours * SecondsPerHour + r.minutes * SecondsPerMinute) * MicrosPerSecond <= p.activeTime
    ensures p.activeTime >= 0 ==>
      p.activeTime < (r.hours * SecondsPerHour + r.minutes * SecondsPerMinute + SecondsPerMinute) * MicrosPerSecond
  {
    Split(WholeSeconds(p.activeTime))
  }

  // ---------------------------------------------------------------------
  // Partial update

  /** The fields a request supplies; the serializer accepts only these
      three. */
  datatype Patch = Patch(name: Option<string>, address: Option<string>, phone: Option<string>)

  const EmptyPatch := Patch(None, None, None)

  function Pick(given: Option<string>, current: string): string {
    match given
    case Some(v) => v
    case None => current
  }

  function ApplyPatch(p: Profile, d: Patch): (r: Profile)
    ensures d.name.Some? ==> r.name == d.name.value
    ensures d.address.Some? ==> r.address == d.address.value
    ensures d.phone.Some? ==> r.phone == d.phone.value
    ensures d.name.None? ==> r.name == p.name
    ensures d.address.None? ==> r.address == p.address
    ensures d.phone.None? ==> r.phone == p.phone
    ensures r.activeTime == p.activeTime
  {
    Profile(Pick(d.name, p.name), Pick(d.address, p.address), Pick(d.phone, p.phone), p.activeTime)
  }

  /** The update view: `valid` is the serializer's verdict on the request. */
  function UpdateProfile(p: Profile, d: Patch, valid: bool): (r: (Reply, Profile))
    ensures !valid ==> r.0 == Reply(StatusBadRequest, ValidationErrors) && r.1 == p
    ensures valid ==> r.0 == Reply(StatusOk, Message("Profile updated successfully")) && r.1 == ApplyPatch(p, d)
    ensures r.1.activeTime == p.activeTime
  {
    if valid then (Reply(StatusOk, Message("Profile updated successfully")), ApplyPatch(p, d))
    else (Reply(StatusBadRequest, ValidationErrors), p)
  }

  /** The later patch wins on every field it supplies. */
  function Merge(a: Patch, b: Patch): Patch {
    Patch(if b.name.Some? then b.name else a.name,
          if b.address.Some? then b.address else a.address,
          if b.phone.Some? then b.phone else a.phone)
  }

  /** Two updates in a row equal one update with the merged fields. */
  lemma PatchesCompose(p: Profile, a: Patch, b: Patch)
    ensures ApplyPatch(ApplyPatch(p, a), b) == ApplyPatch(p, Merge(a, b))
  {
  }

  /** Repeating an update changes nothing more. */
  lemma PatchIsIdempotent(p: Profile, d: Patch)
    ensures ApplyPatch(ApplyPatch(p, d), d) == ApplyPatch(p, d)
  {
  }

  /** A request that supplies no field leaves the profile as it was. */
  lemma EmptyPatchChangesNothing(p: Profile)
    ensures ApplyPatch(p, EmptyPatch) == p
  {
  }
}
