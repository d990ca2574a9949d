/**
 The note entity: its field values, the bean-validation constraints on title
 and body, equality by identifier only and the hash code that goes with it,
 and the mutable bean whose constructors and setters fill those fields.

 A null field is None. Timestamps are instants of an abstract clock (nat).
 */
module Model {
  import opened Wrappers

  /** Upper bounds of the two @Size constraints. */
  const TitleMax: nat := 100
  const BodyMax: nat := 1000

  /** The messages the constraints carry. */
  const TitleRequired: string := "Title is required"
  const TitleTooLong: string := "Title must not exceed 100 characters"
  const BodyRequired: string := "Body is required"
  const BodyTooLong: string := "Body must not exceed 1000 characters"

  /** The five fields of a note, as values. */
  datatype NoteData = NoteData(
    id: Option<int>,
    title: Option<string>,
    body: Option<string>,
    createdAt: Option<nat>,
    updatedAt: Option<nat>)

  // ---------------------------------------------------------------------------
  // Field validity
  // ---------------------------------------------------------------------------

  /** String.trim without its leading part: drops every leading character
      at or below U+0020. */
  function TrimLeading(s: string): (r: string)
    ensures |r| <= |s| && r == s[|s| - |r|..]
    ensures forall i :: 0 <= i < |s| - |r| ==> s[i] <= ' '
    ensures r == [] <==> forall i :: 0 <= i < |s| ==> s[i] <= ' '
    ensures r != [] ==> r[0] > ' '
  {
    if s != [] && s[0] <= ' ' then TrimLeading(s[1..]) else s
  }

  /** String.trim without its trailing part: drops every trailing character
      at or below U+0020. */
  function TrimTrailing(s: string): (r: string)
    ensures |r| <= |s| && r == s[..|r|]
    ensures forall i :: |r| <= i < |s| ==> s[i] <= ' '
    ensures r == [] <==> forall i :: 0 <= i < |s| ==> s[i] <= ' '
    ensures r != [] ==> r[|r| - 1] > ' '
  {
    if s != [] && s[|s| - 1] <= ' ' then TrimTrailing(s[..|s| - 1]) else s
  }

  /** String.trim: the string without its leading and trailing characters
      at or below U+0020. */
  function Trim(s: string): string {
    TrimTrailing(TrimLeading(s))
  }

  /** @NotBlank as its validator checks it: not null, and something is left
      after trim(). */
  predicate NotBlank(s: Option<string>) {
    s.Some? && |Trim(s.value)| > 0
  }

  /** A present value is blank exactly when every character is at or below
      U+0020. */
  lemma NotBlankIffVisibleChar(v: string)
    ensures NotBlank(Some(v)) <==> exists i :: 0 <= i < |v| && v[i] > ' '
  {
    var lead := TrimLeading(v);
    if lead != [] {
      assert v[|v| - |lead|] == lead[0];
    }
  }

  /** Where trim() and Character.isWhitespace part ways: an em space (U+2003)
      alone is not blank, a U+0001 alone is; spaces and tabs alone are blank. */
  lemma BlankExamples()
    ensures NotBlank(Some("\U{2003}"))
    ensures !NotBlank(Some("\U{0001}"))
    ensures !NotBlank(Some(" \t "))
  {
    NotBlankIffVisibleChar("\U{2003}");
    assert "\U{2003}"[0] > ' ';
    NotBlankIffVisibleChar("\U{0001}");
    NotBlankIffVisibleChar(" \t ");
  }

  /** String.length(): UTF-16 code units, two for a character outside the
      Basic Multilingual Plane. */
  function Utf16Length(s: string): (n: nat)
    ensures |s| <= n <= 2 * |s|
    ensures (forall i :: 0 <= i < |s| ==> s[i] as int < 0x1_0000) ==> n == |s|
  {
    if s == [] then 0
    else (if s[0] as int < 0x1_0000 then 1 else 2) + Utf16Length(s[1..])
  }

  /** @Size(max = ...): a null value satisfies it; otherwise its length must
      not exceed the bound. */
  predicate SizeAtMost(s: Option<string>, max: nat) {
    s.None? || Utf16Length(s.value) <= max
  }

  predicate ValidTitle(t: Option<string>) {
    NotBlank(t) && SizeAtMost(t, TitleMax)
  }

  predicate ValidBody(b: Option<string>) {
    NotBlank(b) && SizeAtMost(b, BodyMax)
  }

  /** Both content constraints hold (the id and timestamps are unconstrained). */
  predicate ValidContent(n: NoteData) {
    ValidTitle(n.title) && ValidBody(n.body)
  }

  /** A failed constraint: the field it is on and its message. */
  datatype Violation = Violation(field: string, message: string)

  /** The violations of the two constraints on one field. */
  function FieldViolations(field: string, v: Option<string>, max: nat, required: string, tooLong: string)
    : (vs: seq<Violation>)
    requires required != tooLong
    ensures Violation(field, required) in vs <==> !NotBlank(v)
    ensures Violation(field, tooLong) in vs <==> !SizeAtMost(v, max)
    ensures forall x :: x in vs ==> x.field == field && (x.message == required || x.message == tooLong)
    ensures vs == [] <==> NotBlank(v) && SizeAtMost(v, max)
  {
    (if NotBlank(v) then [] else [Violation(field, required)])
    + (if SizeAtMost(v, max) then [] else [Violation(field, tooLong)])
  }

  /** Every constraint violation of a note: empty exactly when its content is
      valid, and naming a field exactly when that field is invalid. */
  function Violations(n: NoteData): (vs: seq<Violation>)
    ensures vs == [] <==> ValidContent(n)
    ensures (exists x :: x in vs && x.field == "title") <==> !ValidTitle(n.title)
    ensures (exists x :: x in vs && x.field == "body") <==> !ValidBody(n.body)
    ensures Violation("title", TitleRequired) in vs <==> !NotBlank(n.title)
    ensures Violation("title", TitleTooLong) in vs <==> !SizeAtMost(n.title, TitleMax)
    ensures Violation("body", BodyRequired) in vs <==> !NotBlank(n.body)
    ensures Violation("body", BodyTooLong) in vs <==> !SizeAtMost(n.body, BodyMax)
    ensures forall x :: x in vs ==>
      || (x.field == "title" && (x.message == TitleRequired || x.message == TitleTooLong))
      || (x.field == "body" && (x.message == BodyRequired || x.message == BodyTooLong))
  {
    var t := FieldViolations("title", n.title, TitleMax, TitleRequired, TitleTooLong);
    var b := FieldViolations("body", n.body, BodyMax, BodyRequired, BodyTooLong);
    assert "title" != "body";
    assert forall x :: x in t + b <==> x in t || x in b;
    assert !ValidTitle(n.title) ==> t != [] && t[0] in t + b && t[0].field == "title";
    assert !ValidBody(n.body) ==> b != [] && b[0] in t + b && b[0].field == "body";
    t + b
  }

  // ---------------------------------------------------------------------------
  // Identity: equals and hashCode
  // ---------------------------------------------------------------------------

  /** Note.equals between two notes: the ids agree, both null included;
      title, body and timestamps play no part. */
  predicate SameIdentity(a: NoteData, b: NoteData) {
    a.id == b.id
  }

  const TwoTo32: int := 0x1_0000_0000
  const TwoTo64: int := 0x1_0000_0000_0000_0000

  /** The (int) cast: the low 32 bits, read as a two's-complement number. */
  function ToInt32(x: int): (r: int)
    ensures -0x8000_0000 <= r < 0x8000_0000
    ensures (x - r) % TwoTo32 == 0
    ensures -0x8000_0000 <= x < 0x8000_0000 ==> r == x
  {
    var m := x % TwoTo32;
    if m < 0x8000_0000 then m else m - TwoTo32
  }

  /** Bitwise exclusive or of two naturals, one bit at a time. */
  function Xor(a: nat, b: nat): nat
    decreases a + b
  {
    if a == 0 then b
    else if b == 0 then a
    else 2 * Xor(a / 2, b / 2) + (a + b) % 2
  }

  /** Long.hashCode(v) == (int)(v ^ (v >>> 32)): the low 32 bits of the
      result are the two halves of v's 64-bit pattern xor-ed. */
  function LongHash(v: int): (h: int)
    ensures -0x8000_0000 <= h < 0x8000_0000
  {
    var bits := v % TwoTo64;
    ToInt32(Xor(bits % TwoTo32, bits / TwoTo32) % TwoTo32)
  }

  /** Objects.hash(id) == 31 * 1 + (id == null ? 0 : id.hashCode()), in int
      arithmetic. */
  function IdHash(id: Option<int>): (h: int)
    ensures -0x8000_0000 <= h < 0x8000_0000
    ensures id.None? ==> h == 31
  {
    ToInt32(31 + if id.None? then 0 else LongHash(id.value))
  }

  /** The ids the store hands out are small and positive; their hash is 31
      plus the id, so distinct such ids have distinct hashes. */
  lemma SmallIdHash(v: int)
    requires 0 <= v < 0x8000_0000 - 31
    ensures IdHash(Some(v)) == 31 + v
  {
  }

  // ---------------------------------------------------------------------------
  // The mutable bean
  // ---------------------------------------------------------------------------

  class Note {
    var id: Option<int>
    var title: Option<string>
    var body: Option<string>
    var createdAt: Option<nat>
    var updatedAt: Option<nat>

    /** The note's field values. */
    function Data(): NoteData
      reads this
    {
      NoteData(id, title, body, createdAt, updatedAt)
    }

    /** Note(): every field null. */
    constructor Empty()
      ensures Data() == NoteData(None, None, None, None, None)
    {
      id, title, body, createdAt, updatedAt := None, None, None, None, None;
    }

    /** Note(title, body): no id yet; each timestamp from its own reading of
        the clock, createdAt first. */
    constructor (title: Option<string>, body: Option<string>, createdNow: nat, updatedNow: nat)
      ensures Data() == NoteData(None, title, body, Some(createdNow), Some(updatedNow))
    {
      this.id := None;
      this.title := title;
      this.body := body;
      this.createdAt := Some(createdNow);
      this.updatedAt := Some(updatedNow);
    }

    method SetId(v: Option<int>)
      modifies this
      ensures Data() == old(Data()).(id := v)
    {
      id := v;
    }

    method SetTitle(v: Option<string>)
      modifies this
      ensures Data() == old(Data()).(title := v)
    {
      title := v;
    }

    method SetBody(v: Option<string>)
      modifies this
      ensures Data() == old(Data()).(body := v)
    {
      body := v;
    }

    method SetCreatedAt(v: Option<nat>)
      modifies this
      ensures Data() == old(Data()).(createdAt := v)
    {
      createdAt := v;
    }

    method SetUpdatedAt(v: Option<nat>)
      modifies this
      ensures Data() == old(Data()).(updatedAt := v)
    {
      updatedAt := v;
    }

    /** equals(o) for a Note or null: the same object, or a note with the
        same id. */
    function Equals(o: Note?): (eq: bool)
      reads this, o
      ensures eq <==> o != null && SameIdentity(Data(), o.Data())
    {
      this == o || (o != null && id == o.id)
    }

    function HashCode(): (h: int)
      reads this
      ensures -0x8000_0000 <= h < 0x8000_0000
      ensures h == IdHash(Data().id)
    {
      IdHash(id)
    }
  }

  /** equals is reflexive, symmetric and transitive, and never holds with null. */
  lemma EqualsIsEquivalence(a: Note, b: Note, c: Note)
    ensures a.Equals(a)
    ensures !a.Equals(null)
    ensures a.Equals(b) <==> b.Equals(a)
    ensures a.Equals(b) && b.Equals(c) ==> a.Equals(c)
  {
  }

  /** equals and hashCode agree: equal notes hash alike. */
  lemma EqualsImpliesEqualHashCode(a: Note, b: Note)
    requires a.Equals(b)
    ensures a.HashCode() == b.HashCode()
  {
  }
}
