/**
  Facts about this particular page: its eleven section labels, the ids of
  the four sections it renders, and where each navigation link leads.
 */
module Site {
  import opened Slug
  import opened Navigation

  lemma PlainLabelsFirst()
    ensures Plain("Inicio") && Plain("Registrarse") && Plain("Conoce TechNova")
    ensures Plain("Nuestra pedagog\U{00ED}a")
  {
  }

  lemma PlainLabelsMiddle()
    ensures Plain("En quienes nos apoyamos") && Plain("Becas") && Plain("Himno TechNova")
  {
  }

  lemma PlainLabelsLast()
    ensures Plain("Carreras") && Plain("Actividades") && Plain("NovaCafe")
    ensures Plain("Mis movimientos")
  {
  }

  /** The section labels are plainly spelt, pairwise distinct (they are
      also the list keys), and none anchors to a hand-written id. */
  lemma SectionsWellFormed()
    ensures AllPlain(Sections) && Distinct(Sections)
    ensures forall i :: 0 <= i < |Sections| ==> Unreserved(Sections[i])
  {
    PlainLabelsFirst();
    PlainLabelsMiddle();
    PlainLabelsLast();
  }

  /** The anchors of the section labels are whitespace-free and pairwise
      distinct. */
  lemma SectionAnchorsDistinct()
    ensures forall i :: 0 <= i < |Sections| ==> NoWs(Anchor(Sections[i]))
    ensures forall i, j :: 0 <= i < j < |Sections| ==> Anchor(Sections[i]) != Anchor(Sections[j])
  {
    SectionsWellFormed();
    AnchorsDistinct(Sections);
  }

  /** On this page, "Inicio", "Registrarse" and "Conoce TechNova" lead to
      the hero, the form and the history section, the first, third and
      seventh elements with an id. */
  lemma SiteLinkTargets()
    ensures Target(DesktopLinks(Sections)[0], PageIds(Sections)) == Some(0)
    ensures Target(DesktopLinks(Sections)[1], PageIds(Sections)) == Some(2)
    ensures Target(DesktopLinks(Sections)[2], PageIds(Sections)) == Some(6)
  {
    SectionsWellFormed();
    assert AllPlain(Sections[..3]) && Distinct(Sections[..3]);
    LinkTargetsPresent(Sections);
  }

  /** The eight other links of this page have no target on it. */
  lemma SiteDeadLinks()
    ensures forall i :: 3 <= i < |Sections| ==> Target(DesktopLinks(Sections)[i], PageIds(Sections)) == None
  {
    SectionsWellFormed();
    LinkTargetsMissing(Sections);
  }
}
