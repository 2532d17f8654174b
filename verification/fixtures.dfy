/** Tags of the struct types in colprint's unit tests, and the
    directives discovery reads from them. */
module Fixtures {
  import opened Wrappers
  import opened Text
  import opened Decimal
  import opened Columns

  /** A tag "title,order" with no comma in either part is that title with
      the order's `Atoi` reading, or a bad order. */
  lemma TwoPartTag(title: string, order: string)
    requires ',' !in title && ',' !in order
    ensures ParseTag(title + "," + order) ==
              if ParseInt(order).Some? then Labelled(title, ParseInt(order).value) else BadOrder
  {
    var t := title + "," + order;
    CountAbsent(',', title);
    CountAbsent(',', order);
    CountAppend(',', title, ",");
    CountAppend(',', title + ",", order);
    assert t[|title|] == ',';
    assert t[..|title|] == title && t[|title| + 1..] == order;
  }

  /** A tag without a comma, such as "Description" or "Spouse", is a
      column that sorts with the largest 32-bit order. */
  lemma UnorderedTag(tag: string)
    requires tag != "" && tag != "-" && ',' !in tag
    ensures ParseTag(tag) == Labelled(tag, MaxInt32)
  {
    CountAbsent(',', tag);
  }

  /** `Person.FirstName`'s tag "First name,1". */
  lemma FirstNameTag()
    ensures ParseTag("First name,1") == Labelled("First name", 1)
  {
    TwoPartTag("First name", "1");
    assert "First name" + "," + "1" == "First name,1";
    assert ParseInt("1") == Some(1);
  }

  /** `Errornous.Error`'s tag "Error,a": the order does not parse. */
  lemma ErrornousTag()
    ensures ParseTag("Error,a") == BadOrder
  {
    TwoPartTag("Error", "a");
    assert "Error" + "," + "a" == "Error,a";
    assert ParseInt("a") == None;
  }

  /** A tag of three parts is dropped without an error. */
  lemma ThreePartTag()
    ensures ParseTag("Name,1,2") == Ignored
  {
    CountAppend(',', "Name,", "1,2");
    assert "Name," + "1,2" == "Name,1,2";
  }
}
