/** The two entity classes the renderer reads (Model/Entities/Tag.java and
    Model/Entities/Appointment.java): mutable records with constructors,
    setters, `equals` and `hashCode`. The renderer itself works on
    `TagValue` and `AppointmentValue` snapshots of them. */
module Entities {
  import opened JavaText
  import opened JavaTime
  import opened JavaHash

  /** What a `Tag` holds at one moment. */
  datatype TagValue = TagValue(tagId: Int32, name: string, color: string)

  /** What an `Appointment` holds at one moment, its tags included. */
  datatype AppointmentValue = AppointmentValue(
    appointmentId: Int32,
    startDate: LocalDateTime,
    endDate: LocalDateTime,
    title: string,
    description: string,
    tags: seq<TagValue>)

  /** The colour the view shows an appointment in, both for its days in the
      month grid and for its title: the first tag's colour, or white for an
      appointment without tags. */
  function TagColor(a: AppointmentValue): string {
    if a.tags == [] then "white" else a.tags[0].color
  }

  class Tag {
    var tagId: Int32
    var name: string
    var color: string

    /** `Tag(int tagId, String name, String color)` */
    constructor (tagId: Int32, name: string, color: string)
      ensures this.tagId == tagId && this.name == name && this.color == color
    {
      this.tagId := tagId;
      this.name := name;
      this.color := color;
    }

    /** `Tag(String name, String color)`: the id keeps Java's default 0. */
    constructor Named(name: string, color: string)
      ensures tagId == 0 && this.name == name && this.color == color
    {
      tagId := 0;
      this.name := name;
      this.color := color;
    }

    method SetTagId(tagId: Int32)
      modifies this
      ensures this.tagId == tagId && name == old(name) && color == old(color)
    {
      this.tagId := tagId;
    }

    method SetName(name: string)
      modifies this
      ensures this.name == name && tagId == old(tagId) && color == old(color)
    {
      this.name := name;
    }

    /** Any string is accepted; names the palette does not know are
        rendered with its reset fallback. */
    method SetColor(color: string)
      modifies this
      ensures this.color == color && tagId == old(tagId) && name == old(name)
    {
      this.color := color;
    }

    function Value(): TagValue
      reads this
    {
      TagValue(tagId, name, color)
    }

    /** `equals`: the same object, or another `Tag` with the same name and
        colour; the id plays no part. */
    function Equals(o: object?): (r: bool)
      reads this, o
      ensures this == o ==> r
      ensures o == null || !(o is Tag) ==> !r
      ensures o is Tag ==> (r <==> name == (o as Tag).name && color == (o as Tag).color)
    {
      this == o || (o != null && o is Tag && name == (o as Tag).name && color == (o as Tag).color)
    }

    /** `hashCode`: `Objects.hash(tagId, name, color)`. */
    function HashCode(): Int32
      reads this
    {
      ElementsHash([tagId, StringHash(name), StringHash(color)])
    }
  }

  /** `Tag.equals` is an equivalence relation. */
  lemma TagEqualsIsEquivalence(a: Tag, b: Tag, c: Tag)
    ensures a.Equals(a)
    ensures a.Equals(b) ==> b.Equals(a)
    ensures a.Equals(b) && b.Equals(c) ==> a.Equals(c)
  {
  }

  /** `Objects.hash(id, h1, h2)` is `961 * id` plus a part that does not
      depend on the id, modulo 2^32. */
  lemma ThreeFieldHash(id: Int32, h1: Int32, h2: Int32)
    ensures ElementsHash([id, h1, h2]) == Wrap32(961 * id + (29791 + 31 * h1 + h2))
  {
    assert [id, h1, h2][..2] == [id, h1];
    assert [id, h1][..1] == [id];
    assert [id][..0] == [];
    var e1 := ElementsHash([id]);
    var e2 := ElementsHash([id, h1]);
    assert ElementsHash([]) == 1;
    assert e1 == Wrap32(31 * 1 + id);
    assert e2 == Wrap32(31 * (31 + id) + h1) by {
      Wrap32Inner(31, 31 + id, h1);
    }
    assert ElementsHash([id, h1, h2]) == Wrap32(31 * e2 + h2);
    Wrap32Inner(31, 31 * (31 + id) + h1, h2);
    Polynomial(id, h1, h2);
  }

  lemma Polynomial(id: int, h1: int, h2: int)
    ensures 31 * (31 * (31 + id) + h1) + h2 == 961 * id + (29791 + 31 * h1 + h2)
  {
  }

  /** Two ids scaled by 961 agree modulo 2^32 only when they are equal. */
  lemma ScaledIdsApart(id1: Int32, id2: Int32, k: int)
    ensures Wrap32(961 * id1 + k) == Wrap32(961 * id2 + k) <==> id1 == id2
  {
    Wrap32Equal(961 * id1 + k, 961 * id2 + k);
    assert (961 * id1 + k) - (961 * id2 + k) == 961 * (id1 - id2);
    if (961 * (id1 - id2)) % TwoTo32 == 0 {
      TimesNineSixtyOne(id1 - id2);
      if id1 != id2 {
        ModOfShift(id1 - id2, 0);
      }
    }
  }

  /** Hashes of three fields that differ only in the first agree exactly
      when the first fields do. */
  lemma ThreeFieldHashSeesFirst(id1: Int32, id2: Int32, h1: Int32, h2: Int32)
    ensures ElementsHash([id1, h1, h2]) == ElementsHash([id2, h1, h2]) <==> id1 == id2
  {
    ThreeFieldHash(id1, h1, h2);
    ThreeFieldHash(id2, h1, h2);
    ScaledIdsApart(id1, id2, 29791 + 31 * h1 + h2);
  }

  /** Equal tags need not hash alike: for two tags `equals` relates, the
      hash codes agree exactly when the ids do, so `Tag` breaks the
      contract that equal objects have equal hash codes. */
  lemma TagHashSeesId(a: Tag, b: Tag)
    requires a.Equals(b)
    ensures a.HashCode() == b.HashCode() <==> a.tagId == b.tagId
  {
    var hn, hc := StringHash(a.name), StringHash(a.color);
    assert a.HashCode() == ElementsHash([a.tagId, hn, hc]);
    assert b.HashCode() == ElementsHash([b.tagId, hn, hc]);
    ThreeFieldHashSeesFirst(a.tagId, b.tagId, hn, hc);
  }

  /** `List.equals` on two tag lists: the same length and `Tag.equals`
      position by position. */
  predicate TagsEqual(a: seq<Tag>, b: seq<Tag>)
    reads a, b
  {
    |a| == |b| && forall i :: 0 <= i < |a| ==> a[i].Equals(b[i])
  }

  /** The hash code of each tag of a list, in order. */
  function TagHashes(ts: seq<Tag>): (hs: seq<Int32>)
    reads ts
    ensures |hs| == |ts|
    ensures forall i :: 0 <= i < |ts| ==> hs[i] == ts[i].HashCode()
  {
    if ts == [] then [] else [ts[0].HashCode()] + TagHashes(ts[1..])
  }

  /** Snapshots of each tag of a list, in order. */
  function TagValues(ts: seq<Tag>): (vs: seq<TagValue>)
    reads ts
    ensures |vs| == |ts|
    ensures forall i :: 0 <= i < |ts| ==> vs[i] == ts[i].Value()
  {
    if ts == [] then [] else [ts[0].Value()] + TagValues(ts[1..])
  }

  class Appointment {
    var appointmentId: Int32
    var startDate: LocalDateTime
    var endDate: LocalDateTime
    var title: string
    var description: string
    var tags: seq<Tag>

    /** The six-argument constructor stores every argument. */
    constructor (appointmentId: Int32, startDate: LocalDateTime, endDate: LocalDateTime,
                 title: string, description: string, tags: seq<Tag>)
      ensures this.appointmentId == appointmentId
      ensures this.startDate == startDate && this.endDate == endDate
      ensures this.title == title && this.description == description && this.tags == tags
    {
      this.appointmentId := appointmentId;
      this.startDate := startDate;
      this.endDate := endDate;
      this.title := title;
      this.description := description;
      this.tags := tags;
    }

    /** The five-argument constructor: the id keeps Java's default 0. */
    constructor Unnumbered(startDate: LocalDateTime, endDate: LocalDateTime,
                           title: string, description: string, tags: seq<Tag>)
      ensures appointmentId == 0
      ensures this.startDate == startDate && this.endDate == endDate
      ensures this.title == title && this.description == description && this.tags == tags
    {
      appointmentId := 0;
      this.startDate := startDate;
      this.endDate := endDate;
      this.title := title;
      this.description := description;
      this.tags := tags;
    }

    method SetAppointmentId(appointmentId: Int32)
      modifies this
      ensures this.appointmentId == appointmentId
      ensures startDate == old(startDate) && endDate == old(endDate) && title == old(title)
      ensures description == old(description) && tags == old(tags)
    {
      this.appointmentId := appointmentId;
    }

    method SetStartDate(startDate: LocalDateTime)
      modifies this
      ensures this.startDate == startDate
      ensures appointmentId == old(appointmentId) && endDate == old(endDate) && title == old(title)
      ensures description == old(description) && tags == old(tags)
    {
      this.startDate := startDate;
    }

    method SetEndDate(endDate: LocalDateTime)
      modifies this
      ensures this.endDate == endDate
      ensures appointmentId == old(appointmentId) && startDate == old(startDate) && title == old(title)
      ensures description == old(description) && tags == old(tags)
    {
      this.endDate := endDate;
    }

    method SetTitle(title: string)
      modifies this
      ensures this.title == title
      ensures appointmentId == old(appointmentId) && startDate == old(startDate) && endDate == old(endDate)
      ensures description == old(description) && tags == old(tags)
    {
      this.title := title;
    }

    method SetDescription(description: string)
      modifies this
      ensures this.description == description
      ensures appointmentId == old(appointmentId) && startDate == old(startDate) && endDate == old(endDate)
      ensures title == old(title) && tags == old(tags)
    {
      this.description := description;
    }

    method SetTags(tags: seq<Tag>)
      modifies this
      ensures this.tags == tags
      ensures appointmentId == old(appointmentId) && startDate == old(startDate) && endDate == old(endDate)
      ensures title == old(title) && description == old(description)
    {
      this.tags := tags;
    }

    function Value(): AppointmentValue
      reads this, tags
    {
      AppointmentValue(appointmentId, startDate, endDate, title, description, TagValues(tags))
    }

    /** The six fields `equals` compares once the shortcuts are passed. */
    predicate SameFields(that: Appointment)
      reads this, tags, that, that.tags
    {
      appointmentId == that.appointmentId && startDate == that.startDate && endDate == that.endDate
      && title == that.title && description == that.description && TagsEqual(tags, that.tags)
    }

    /** `equals`: the same object, or another `Appointment` with the same
        id, dates, title and description and `equals`-related tags. */
    function Equals(o: object?): (r: bool)
      reads this, o, tags, if o is Appointment then (o as Appointment).tags else []
      ensures this == o ==> r
      ensures o == null || !(o is Appointment) ==> !r
      ensures o is Appointment ==> (r <==> SameFields(o as Appointment))
    {
      this == o || (o != null && o is Appointment && SameFields(o as Appointment))
    }

    /** `hashCode`: `Objects.hash` of the six fields; the tag list
        contributes `List.hashCode` of the tag hash codes. */
    function HashCode(): Int32
      reads this, tags
    {
      ElementsHash(ScalarHashes() + [ElementsHash(TagHashes(tags))])
    }

    /** The hash codes of the first five fields, in declaration order. */
    function ScalarHashes(): seq<Int32>
      reads this
    {
      [appointmentId, LocalDateTimeHash(startDate), LocalDateTimeHash(endDate),
       StringHash(title), StringHash(description)]
    }
  }

  /** `Appointment.equals` is an equivalence relation. */
  lemma AppointmentEqualsIsEquivalence(a: Appointment, b: Appointment, c: Appointment)
    ensures a.Equals(a)
    ensures a.Equals(b) ==> b.Equals(a)
    ensures a.Equals(b) && b.Equals(c) ==> a.Equals(c)
  {
    if a.Equals(b) && b.Equals(c) {
      forall i | 0 <= i < |a.tags|
        ensures a.tags[i].Equals(c.tags[i])
      {
        TagEqualsIsEquivalence(a.tags[i], b.tags[i], c.tags[i]);
      }
    }
  }

  /** Hash codes of element lists that differ only in the last element
      agree exactly when the last elements do. */
  lemma LastElementHash(prefix: seq<Int32>, x: Int32, y: Int32)
    ensures ElementsHash(prefix + [x]) == ElementsHash(prefix + [y]) <==> x == y
  {
    assert (prefix + [x])[..|prefix|] == prefix;
    assert (prefix + [y])[..|prefix|] == prefix;
    Wrap32AddInjective(31 * ElementsHash(prefix), x, y);
  }

  /** Two appointments `equals` relates hash alike exactly when their tag
      lists do. */
  lemma AppointmentHashFollowsTags(a: Appointment, b: Appointment)
    requires a.Equals(b)
    ensures a.HashCode() == b.HashCode() <==> ElementsHash(TagHashes(a.tags)) == ElementsHash(TagHashes(b.tags))
  {
    var la, lb := ElementsHash(TagHashes(a.tags)), ElementsHash(TagHashes(b.tags));
    assert a.ScalarHashes() == b.ScalarHashes();
    LastElementHash(a.ScalarHashes(), la, lb);
  }

  /** The hash code of a one-tag list follows the tag's id, for tags
      `equals` relates. */
  lemma OneTagListHash(ta: Tag, tb: Tag)
    requires ta.Equals(tb)
    ensures ElementsHash(TagHashes([ta])) == ElementsHash(TagHashes([tb])) <==> ta.tagId == tb.tagId
  {
    var ha, hb := ta.HashCode(), tb.HashCode();
    var sa, sb := TagHashes([ta]), TagHashes([tb]);
    assert sa == [] + [ha] by { assert |sa| == 1 && sa[0] == ha; }
    assert sb == [] + [hb] by { assert |sb| == 1 && sb[0] == hb; }
    LastElementHash([], ha, hb);
    TagHashSeesId(ta, tb);
  }

  /** Equal appointments need not hash alike: with one tag each, two
      appointments `equals` relates hash alike exactly when their tags
      have the same id, although the ids play no part in `equals`. */
  lemma AppointmentHashSeesTagId(a: Appointment, b: Appointment)
    requires a.Equals(b) && |a.tags| == 1
    ensures a.HashCode() == b.HashCode() <==> a.tags[0].tagId == b.tags[0].tagId
  {
    AppointmentHashFollowsTags(a, b);
    EqualTagLists(a, b);
    SingletonTagLists(a.tags, b.tags);
  }

  lemma EqualTagLists(a: Appointment, b: Appointment)
    requires a.Equals(b)
    ensures TagsEqual(a.tags, b.tags)
  {
    assert a.SameFields(b);
  }

  lemma SingletonTagLists(ts: seq<Tag>, us: seq<Tag>)
    requires |ts| == 1 && TagsEqual(ts, us)
    ensures ElementsHash(TagHashes(ts)) == ElementsHash(TagHashes(us)) <==> ts[0].tagId == us[0].tagId
  {
    assert ts[0].Equals(us[0]);
    assert ts == [ts[0]] && us == [us[0]];
    OneTagListHash(ts[0], us[0]);
  }
}
