/**
  The navigation of the page: the fixed list of section labels, the two link
  lists built from it (the desktop bar and the mobile drawer), the ids of the
  sections actually on the page, and what following a link does.
 */
module Navigation {
  import opened Slug
  import opened Shell

  datatype Option<T> = None | Some(value: T)

  /** The section labels, in display order. */
  const Sections: seq<string> := [
    "Inicio",
    "Registrarse",
    "Conoce TechNova",
    "Nuestra pedagog\U{00ED}a",
    "En quienes nos apoyamos",
    "Becas",
    "Himno TechNova",
    "Carreras",
    "Actividades",
    "NovaCafe",
    "Mis movimientos"
  ]

  /** What a link does when clicked besides navigating. */
  datatype Click = NoHandler | Dispatch(action: Action)

  datatype Link = Link(text: string, href: string, onClick: Click)

  /** The fragment id a same-page link points to: the text after a leading
      `#`, or none for any other href. */
  function Fragment(href: string): (f: Option<string>)
    ensures f.Some? <==> |href| >= 1 && href[0] == '#'
    ensures f.Some? ==> href == "#" + f.value
  {
    if |href| >= 1 && href[0] == '#' then Some(href[1..]) else None
  }

  /** One link per label, in the order of the labels, each pointing at the
      anchor of its label and carrying the given click handler. */
  function NavLinks(labels: seq<string>, click: Click): (links: seq<Link>)
    ensures |links| == |labels|
    ensures forall i :: 0 <= i < |links| ==>
      && links[i].text == labels[i]
      && links[i].onClick == click
      && Fragment(links[i].href) == Some(Anchor(labels[i]))
  {
    if labels == [] then []
    else [Link(labels[0], "#" + Anchor(labels[0]), click)] + NavLinks(labels[1..], click)
  }

  /** The desktop navigation bar: plain links. */
  function DesktopLinks(labels: seq<string>): seq<Link> {
    NavLinks(labels, NoHandler)
  }

  /** The mobile drawer: the same links, each closing the drawer on click. */
  function DrawerLinks(labels: seq<string>): seq<Link> {
    NavLinks(labels, Dispatch(NavigateFromDrawer))
  }

  /** The two words of the card grid's id. */
  const Inicio: string := "Inicio"
  const Cards: string := "cards"

  /** The id the card grid is given by hand instead of through `anchor`:
      "Inicio-cards". */
  const CardsId: string := Inicio + "-" + Cards

  /** The one plainly spelt label whose anchor is the card grid's id:
      "Inicio cards". */
  const CardsLabel: string := Inicio + " " + Cards

  /** The ids of the registration form's controls, in page order: the name
      and email inputs built by `formField`, and the role select. */
  const FormIds: seq<string> := ["name", "email", "role"]

  /** The ids of the elements on the page, in tree order: the hero (anchor
      of the first label, "Inicio"), the card grid, the registration form
      (anchor of the second label, "Registrarse"), the form's three controls,
      and the history section (anchor of the third label, "Conoce
      TechNova"). */
  function PageIds(labels: seq<string>): seq<string>
    requires |labels| >= 3
  {
    [Anchor(labels[0]), CardsId, Anchor(labels[1])] + FormIds + [Anchor(labels[2])]
  }

  /** A label whose anchor is none of the ids written by hand on the page. */
  predicate Unreserved(x: string) {
    x != CardsLabel && x !in FormIds
  }

  /** Position of the first element of `ids` equal to `id`, as the host page
      resolves a fragment to the first element with that id. */
  function IndexOf(ids: seq<string>, id: string): (r: Option<nat>)
    ensures r.Some? ==> r.value < |ids| && ids[r.value] == id
    ensures r.Some? ==> forall j :: 0 <= j < r.value ==> ids[j] != id
    ensures r.None? <==> id !in ids
  {
    if ids == [] then None
    else if ids[0] == id then Some(0)
    else match IndexOf(ids[1..], id)
      case None => None
      case Some(k) => Some(k + 1)
  }

  /** The position among the page's element ids that a link scrolls to, if
      any. */
  function Target(link: Link, ids: seq<string>): (r: Option<nat>)
    ensures r.Some? ==> r.value < |ids| && Fragment(link.href) == Some(ids[r.value])
    ensures r.Some? ==> forall j :: 0 <= j < r.value ==> ids[j] != ids[r.value]
    ensures r.None? <==> Fragment(link.href).None? || Fragment(link.href).value !in ids
  {
    match Fragment(link.href)
    case None => None
    case Some(f) => IndexOf(ids, f)
  }

  /** The shell state after a link is clicked. */
  function Activate(s: State, link: Link): State {
    match link.onClick
    case NoHandler => s
    case Dispatch(a) => Step(s, a)
  }

  // ---------------------------------------------------------------------
  // Lemmas
  // ---------------------------------------------------------------------

  /** Every label is plainly spelt (single ordinary spaces, no hyphen). */
  predicate AllPlain(labels: seq<string>) {
    forall i :: 0 <= i < |labels| ==> Plain(labels[i])
  }

  predicate Distinct(xs: seq<string>) {
    forall i, j :: 0 <= i < j < |xs| ==> xs[i] != xs[j]
  }

  /** The desktop bar and the drawer list the same labels in the same order
      with the same hrefs; they differ only in the drawer's click handler. */
  lemma DesktopMatchesDrawer(labels: seq<string>)
    ensures |DesktopLinks(labels)| == |DrawerLinks(labels)| == |labels|
    ensures forall i :: 0 <= i < |labels| ==>
      && DesktopLinks(labels)[i].text == DrawerLinks(labels)[i].text == labels[i]
      && DesktopLinks(labels)[i].href == DrawerLinks(labels)[i].href
      && DesktopLinks(labels)[i].onClick == NoHandler
      && DrawerLinks(labels)[i].onClick == Dispatch(NavigateFromDrawer)
  {
  }

  /** Clicking a drawer link closes the drawer and keeps the colour scheme,
      whatever the state; clicking a desktop link changes no state. */
  lemma ActivateLinks(s: State, labels: seq<string>)
    ensures forall i :: 0 <= i < |labels| ==> Activate(s, DrawerLinks(labels)[i]) == State(false, s.dark)
    ensures forall i :: 0 <= i < |labels| ==> Activate(s, DesktopLinks(labels)[i]) == s
  {
  }

  /** Distinct plainly spelt labels give whitespace-free, pairwise distinct
      anchors, so no two links of a list share a target. */
  lemma AnchorsDistinct(labels: seq<string>)
    requires AllPlain(labels) && Distinct(labels)
    ensures forall i :: 0 <= i < |labels| ==> NoWs(Anchor(labels[i]))
    ensures forall i, j :: 0 <= i < j < |labels| ==> Anchor(labels[i]) != Anchor(labels[j])
  {
    forall i, j | 0 <= i < j < |labels|
      ensures Anchor(labels[i]) != Anchor(labels[j])
    {
      AnchorInjectiveOnPlain(labels[i], labels[j]);
    }
  }

  /** A link scrolls to the first page section whose id is the anchor of
      the link's label. */
  lemma TargetOfLink(labels: seq<string>, c: Click, ids: seq<string>, i: nat)
    requires i < |labels|
    ensures Target(NavLinks(labels, c)[i], ids) == IndexOf(ids, Anchor(labels[i]))
  {
  }

  /** In a list of distinct ids, each id is found at its own position. */
  lemma IndexOfDistinct(ids: seq<string>, k: nat)
    requires k < |ids| && Distinct(ids)
    ensures IndexOf(ids, ids[k]) == Some(k)
  {
    assert ids[k] in ids;
  }

  /** "Inicio cards" anchors to the card grid's id. */
  lemma CardsLabelAnchor()
    ensures Anchor(CardsLabel) == CardsId
  {
    AnchorTwoWords(Inicio, " ", Cards);
  }

  /** "Inicio cards" is plainly spelt. */
  lemma CardsLabelPlain()
    ensures Plain(CardsLabel)
  {
  }

  /** Each form control id is plainly spelt. */
  lemma FormIdsPlain()
    ensures forall k :: 0 <= k < |FormIds| ==> Plain(FormIds[k])
  {
  }

  /** Each form control id is its own anchor. */
  lemma FormIdsFixed()
    ensures forall k :: 0 <= k < |FormIds| ==> Anchor(FormIds[k]) == FormIds[k]
  {
    AnchorIdentity(FormIds[0]);
    AnchorIdentity(FormIds[1]);
    AnchorIdentity(FormIds[2]);
  }

  /** A plainly spelt label other than "Inicio cards" does not anchor to the
      card grid's id. */
  lemma NotCardsId(x: string)
    requires Plain(x) && x != CardsLabel
    ensures Anchor(x) != CardsId
  {
    CardsLabelPlain();
    CardsLabelAnchor();
    AnchorInjectiveOnPlain(x, CardsLabel);
  }

  /** A plainly spelt label that is not a form control id does not anchor to
      one. */
  lemma NotFormId(x: string)
    requires Plain(x) && x !in FormIds
    ensures Anchor(x) !in FormIds
  {
    FormIdsPlain();
    FormIdsFixed();
    AnchorInjectiveOnPlain(x, FormIds[0]);
    AnchorInjectiveOnPlain(x, FormIds[1]);
    AnchorInjectiveOnPlain(x, FormIds[2]);
  }

  /** A plainly spelt, unreserved label anchors to no hand-written id. */
  lemma NotReserved(x: string)
    requires Plain(x) && Unreserved(x)
    ensures Anchor(x) != CardsId && Anchor(x) !in FormIds
  {
    NotCardsId(x);
    NotFormId(x);
  }

  /** With the first three labels plainly spelt, distinct and unreserved,
      the ids on the page are pairwise distinct. */
  lemma PageIdsDistinct(labels: seq<string>)
    requires |labels| >= 3
    requires AllPlain(labels[..3]) && Distinct(labels[..3])
    requires forall i :: 0 <= i < 3 ==> Unreserved(labels[i])
    ensures Distinct(PageIds(labels))
  {
    assert labels[..3][0] == labels[0] && labels[..3][1] == labels[1] && labels[..3][2] == labels[2];
    var a0, a1, a2 := Anchor(labels[0]), Anchor(labels[1]), Anchor(labels[2]);
    NotReserved(labels[0]);
    NotReserved(labels[1]);
    NotReserved(labels[2]);
    AnchorInjectiveOnPlain(labels[0], labels[1]);
    AnchorInjectiveOnPlain(labels[0], labels[2]);
    AnchorInjectiveOnPlain(labels[1], labels[2]);
    assert PageIds(labels) == [a0, CardsId, a1, FormIds[0], FormIds[1], FormIds[2], a2];
  }

  /** The first three labels link to the sections built with `anchor` of the
      same label: the hero, the form and the history section. */
  lemma LinkTargetsPresent(labels: seq<string>)
    requires |labels| >= 3
    requires AllPlain(labels[..3]) && Distinct(labels[..3])
    requires forall i :: 0 <= i < 3 ==> Unreserved(labels[i])
    ensures Target(DesktopLinks(labels)[0], PageIds(labels)) == Some(0)
    ensures Target(DesktopLinks(labels)[1], PageIds(labels)) == Some(2)
    ensures Target(DesktopLinks(labels)[2], PageIds(labels)) == Some(6)
  {
    var ids := PageIds(labels);
    PageIdsDistinct(labels);
    TargetOfLink(labels, NoHandler, ids, 0);
    IndexOfDistinct(ids, 0);
    TargetOfLink(labels, NoHandler, ids, 1);
    IndexOfDistinct(ids, 2);
    TargetOfLink(labels, NoHandler, ids, 2);
    IndexOfDistinct(ids, 6);
  }

  /** A plainly spelt, unreserved label that is none of the first three has
      an anchor that is no id on the page. */
  lemma NotAPageId(labels: seq<string>, x: string)
    requires |labels| >= 3
    requires Plain(labels[0]) && Plain(labels[1]) && Plain(labels[2])
    requires Plain(x) && Unreserved(x)
    requires x != labels[0] && x != labels[1] && x != labels[2]
    ensures Anchor(x) !in PageIds(labels)
  {
    NotReserved(x);
    AnchorInjectiveOnPlain(x, labels[0]);
    AnchorInjectiveOnPlain(x, labels[1]);
    AnchorInjectiveOnPlain(x, labels[2]);
  }

  /** The links of the other labels lead nowhere on the page. */
  lemma LinkTargetsMissing(labels: seq<string>)
    requires |labels| >= 3 && AllPlain(labels) && Distinct(labels)
    requires forall i :: 3 <= i < |labels| ==> Unreserved(labels[i])
    ensures forall i :: 3 <= i < |labels| ==> Target(DesktopLinks(labels)[i], PageIds(labels)) == None
  {
    forall i | 3 <= i < |labels|
      ensures Target(DesktopLinks(labels)[i], PageIds(labels)) == None
    {
      TargetOfLink(labels, NoHandler, PageIds(labels), i);
      NotAPageId(labels, labels[i]);
    }
  }
}
