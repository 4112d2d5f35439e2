/** The type-section emitter: one header line per registered type, in registration
    order, followed by the entry's body split into visibility groups. */
module TypeParser {
  import opened Common
  import opened Types
  import opened Text
  import opened UnitModel
  import opened UnitWriter

  function PrivacyText(p: Privacy): string
  {
    match p
    case Public => "public"
    case Private => "private"
    case Protected => "protected"
  }

  /** The header `<name> = <kind>`, with ` (<parent>)` for a class whose parent text is
      present and non-empty. */
  function Definition(d: Declaration): string
  {
    var header := d.name + " = " + KindText(d);
    if d.Class? && d.parent.Some? && d.parent.value != "" then header + " (" + d.parent.value + ")"
    else header
  }

  /** `body.filter(dec => dec.privacy === p)` */
  function WithPrivacy(ds: seq<Declaration>, p: Privacy): seq<Declaration>
  {
    if ds == [] then []
    else WithPrivacy(ds[..|ds| - 1], p) + (if ds[|ds| - 1].privacy == Some(p) then [ds[|ds| - 1]] else [])
  }

  /** One line per declaration name. */
  function NameLines(ds: seq<Declaration>, indent: nat): string
  {
    Flatten(ds, (d: Declaration) => Line(indent, d.name))
  }

  /** What `writeDeclarations(p, ds)` writes: nothing for an empty group, else the
      label and then the names one level deeper. */
  function GroupText(p: Privacy, ds: seq<Declaration>, indent: nat): string
  {
    if ds == [] then "" else Line(indent, PrivacyText(p)) + NameLines(ds, indent + 1)
  }

  /** The body of an entry: the public, private and protected groups, in that order. */
  function BodyText(body: Option<seq<Declaration>>, indent: nat): string
  {
    match body
    case None => ""
    case Some(b) =>
      GroupText(Public, WithPrivacy(b, Public), indent)
      + GroupText(Private, WithPrivacy(b, Private), indent)
      + GroupText(Protected, WithPrivacy(b, Protected), indent)
  }

  /** The text of one registered type. */
  function EntryText(d: Declaration, indent: nat): string
  {
    Line(indent, Definition(d)) + BodyText(d.body, indent + 1)
  }

  /** The text of a whole registry, in registration order. */
  function TypesText(entries: seq<Entry<Declaration>>, indent: nat): string
  {
    Flatten(entries, (e: Entry<Declaration>) => EntryText(e.value, indent))
  }

  method WriteDeclarations(u: UnitWriter, p: Privacy, declarations: seq<Declaration>)
    modifies u
    ensures u.content == old(u.content) + GroupText(p, declarations, old(u.currentIdentation))
    ensures u.currentIdentation == old(u.currentIdentation) && u.State() == old(u.State())
  {
    if |declarations| > 0 {
      ghost var indent := u.currentIdentation;
      u.WriteLine(PrivacyText(p));
      u.AdjustIdentation();
      var i := 0;
      while i < |declarations|
        invariant 0 <= i <= |declarations|
        invariant u.content == old(u.content) + Line(indent, PrivacyText(p)) + NameLines(declarations[..i], indent + 1)
        invariant u.currentIdentation == indent + 1 && u.State() == old(u.State())
      {
        FlattenStepAfter(old(u.content) + Line(indent, PrivacyText(p)), declarations, i,
                         (d: Declaration) => Line(indent + 1, d.name));
        u.WriteLine(declarations[i].name);
        i := i + 1;
      }
      assert declarations[..i] == declarations;
      u.AdjustIdentation(-1);
    }
  }

  /** One iteration of `parse`: the header, then the body groups one level deeper. */
  method WriteEntry(u: UnitWriter, t: Declaration)
    modifies u
    ensures u.content == old(u.content) + EntryText(t, old(u.currentIdentation))
    ensures u.currentIdentation == old(u.currentIdentation) && u.State() == old(u.State())
  {
    ghost var indent := u.currentIdentation;
    var definition := t.name + " = " + KindText(t);
    if t.Class? && t.parent.Some? && t.parent.value != "" {
      definition := definition + " (" + t.parent.value + ")";
    }
    assert definition == Definition(t);
    u.WriteLine(definition);
    assert u.content == old(u.content) + Line(indent, Definition(t));
    u.AdjustIdentation();
    assert u.currentIdentation == indent + 1;
    ghost var header := u.content;
    if t.body.Some? {
      var publicDecs := WithPrivacy(t.body.value, Public);
      var privateDecs := WithPrivacy(t.body.value, Private);
      var protectedDecs := WithPrivacy(t.body.value, Protected);
      WriteDeclarations(u, Public, publicDecs);
      WriteDeclarations(u, Private, privateDecs);
      WriteDeclarations(u, Protected, protectedDecs);
      Assoc(header, GroupText(Public, publicDecs, indent + 1), GroupText(Private, privateDecs, indent + 1));
      Assoc(header, GroupText(Public, publicDecs, indent + 1) + GroupText(Private, privateDecs, indent + 1),
            GroupText(Protected, protectedDecs, indent + 1));
    }
    Assoc(old(u.content), Line(indent, Definition(t)), BodyText(t.body, indent + 1));
    u.AdjustIdentation(-1);
  }

  method Parse(u: UnitWriter)
    modifies u
    ensures u.content == old(u.content) + TypesText(old(u.types), old(u.currentIdentation))
    ensures u.currentIdentation == old(u.currentIdentation) && u.State() == old(u.State())
  {
    ghost var indent := u.currentIdentation;
    var i := 0;
    while i < |u.types|
      invariant 0 <= i <= |u.types|
      invariant u.content == old(u.content) + TypesText(u.types[..i], indent)
      invariant u.currentIdentation == indent && u.State() == old(u.State())
    {
      FlattenStepAfter(old(u.content), u.types, i, (e: Entry<Declaration>) => EntryText(e.value, indent));
      WriteEntry(u, u.types[i].value);
      i := i + 1;
    }
    assert u.types[..i] == u.types;
  }

  // ---------------------------------------------------------------------------
  // Properties of the type section

  /** The section is the concatenation of the entries' texts in registration order. */
  lemma TypesTextAppend(a: seq<Entry<Declaration>>, b: seq<Entry<Declaration>>, indent: nat)
    ensures TypesText(a + b, indent) == TypesText(a, indent) + TypesText(b, indent)
  {
    FlattenAppend(a, b, (e: Entry<Declaration>) => EntryText(e.value, indent));
  }

  /** A declaration belongs to a group exactly when it is in the body and carries that
      group's tag; a declaration with no tag is in no group. */
  lemma {:induction false} WithPrivacyMembers(ds: seq<Declaration>, p: Privacy, d: Declaration)
    ensures d in WithPrivacy(ds, p) <==> d in ds && d.privacy == Some(p)
  {
    if ds != [] {
      WithPrivacyMembers(ds[..|ds| - 1], p, d);
      assert ds == ds[..|ds| - 1] + [ds[|ds| - 1]];
    }
  }

  /** The declarations of a body that carry some privacy tag. */
  function Tagged(ds: seq<Declaration>): seq<Declaration>
  {
    if ds == [] then []
    else Tagged(ds[..|ds| - 1]) + (if ds[|ds| - 1].privacy.Some? then [ds[|ds| - 1]] else [])
  }

  lemma {:induction false} WithPrivacyTagged(ds: seq<Declaration>, p: Privacy)
    ensures WithPrivacy(Tagged(ds), p) == WithPrivacy(ds, p)
  {
    if ds != [] {
      var init := ds[..|ds| - 1];
      var last := ds[|ds| - 1];
      WithPrivacyTagged(init, p);
      assert WithPrivacy(ds, p) == WithPrivacy(init, p) + (if last.privacy == Some(p) then [last] else []);
      if last.privacy.Some? {
        var t := Tagged(init) + [last];
        assert Tagged(ds) == t;
        assert t[..|t| - 1] == Tagged(init);
        assert t[|t| - 1] == last;
      } else {
        assert Tagged(ds) == Tagged(init);
      }
    }
  }

  /** Removing every untagged declaration from a body leaves its printed text as it
      was: untagged declarations are printed in no group. */
  lemma UntaggedNotPrinted(ds: seq<Declaration>, indent: nat)
    ensures BodyText(Some(ds), indent) == BodyText(Some(Tagged(ds)), indent)
  {
    WithPrivacyTagged(ds, Public);
    WithPrivacyTagged(ds, Private);
    WithPrivacyTagged(ds, Protected);
  }

  /** A class prints its name, kind and parent only: its member map is never printed,
      and an entry without a body prints exactly its header line. */
  lemma ClassMembersNotPrinted(name: string, privacy: Option<Privacy>, parent: Option<string>,
                               ms1: Option<map<string, string>>, ms2: Option<map<string, string>>, indent: nat)
    ensures EntryText(Class(name, privacy, None, parent, ms1), indent)
         == EntryText(Class(name, privacy, None, parent, ms2), indent)
         == Line(indent, Definition(Class(name, privacy, None, parent, ms1)))
  {
  }

  /** The parent appears in the header exactly when the entry is a class whose parent
      text is present and non-empty. */
  lemma ParentShown(d: Declaration)
    ensures Definition(d) != d.name + " = " + KindText(d) <==> d.Class? && d.parent.Some? && d.parent.value != ""
  {
    if d.Class? && d.parent.Some? && d.parent.value != "" {
      assert |Definition(d)| > |d.name + " = " + KindText(d)|;
    }
  }
}
