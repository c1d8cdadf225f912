# InNovaTech single-page shell — a Dafny model

The InNovaTech app is a one-page React site for the TechNova academy. Almost
all of it is markup. The logic it does have sits in `InNovaTechApp.jsx`:

- **The `anchor` helper.** It turns a section label into a same-page
  fragment id with `text.replace(/\s+/g, "-")`. Each maximal whitespace run
  becomes one hyphen.
- **The shell state.** There are two boolean flags. `open` is the mobile
  navigation drawer and `dark` is the colour scheme. Both start false.
- **Three state changes.** The theme button flips `dark`, the menu button
  flips `open`, and a click on a drawer link closes the drawer.
- **The navigation.** The eleven section labels are mapped to links, once
  for the desktop bar and once for the drawer. Each link points at
  `"#" + anchor(label)`.
- **The element ids.** The page renders four sections. Three of them are
  named with `anchor` of a label: the hero, the registration form and the
  history section. The card grid has the hand-written id `"Inicio-cards"`.
  Inside the form, three controls also carry ids: `name`, `email` and
  `role`. A fragment link scrolls to the first element with a matching id,
  so the app's seven element ids are modelled, in tree order. Ids of the
  host page around the app are not (see "Left out").

The project has four modules, one file each.

| file | module | contents |
|---|---|---|
| `slug.dfy` | `Slug` | See below. |
| `shell.dfy` | `Shell` | The two-flag state, its actions, runs of actions, and the state-dependent part of the rendered view. |
| `navigation.dfy` | `Navigation` | The section labels, the two link lists, the page ids, and where a link leads. All facts are stated generically over any label list. |
| `site.dfy` | `Site` | The same facts for this page's eleven labels. |

`slug.dfy` holds the following:

- `Anchor`, which follows the regular-expression engine. It scans greedily and emits one hyphen per longest whitespace run.
- An independent reference, `s.split(/\s+/).join("-")`, built one character at a time from `Fields` and `Join`.
- `Unanchor`, which reverses `Anchor` on plainly spelt labels.

`IsWs` is the `\s` class of ECMAScript regular expressions. That class is
the WhiteSpace and LineTerminator code points, written out as a fixed list.

Eight of the eleven navigation links, from "Nuestra pedagogía" on, have no
target section on the page (Site.SiteDeadLinks). Line 127 of
`InNovaTechApp.jsx` marks those sections as left out of the file, so this is
an incomplete page rather than a defect in the code.

## Model

| member | source | states |
|---|---|---|
| Slug.IsWs | InNovaTechApp.jsx:172 | The `\s` class of the regular expression: the ECMAScript WhiteSpace and LineTerminator code points. Definition only; the body is the model. |
| Slug.WsRun | InNovaTechApp.jsx:172 | The greedy match of `\s+` at the front of a string: everything it covers is whitespace, and it stops only at the end or at a non-whitespace character. |
| Slug.Anchor | InNovaTechApp.jsx:171-173 | The anchor of any label contains no whitespace character and is no longer than the label. |
| Slug.Fields | InNovaTechApp.jsx:172 | Splitting at whitespace runs always gives at least one field, and no field contains whitespace. |
| Slug.AnchorIsSplitJoin | InNovaTechApp.jsx:172 | For every string, `replace(/\s+/g, "-")` equals `split(/\s+/).join("-")`. So the hyphens of the anchor are exactly the separators between the fields. |
| Slug.AnchorKeepsNonWs | InNovaTechApp.jsx:172 | Deleting the inserted hyphens gives back exactly the non-whitespace characters of the label, in order. There is one field more than there are whitespace runs. |
| Slug.AnchorLength | InNovaTechApp.jsx:172 | The anchor's length is the number of non-whitespace characters plus the number of whitespace runs. This is at most the label's length. |
| Slug.AnchorIdentity | InNovaTechApp.jsx:172 | The anchor equals the label exactly when the label has no whitespace, as for "Inicio" and "Becas". |
| Slug.AnchorIdempotent | InNovaTechApp.jsx:172 | Applying `anchor` to an anchor changes nothing. |
| Slug.AnchorAppendWord | InNovaTechApp.jsx:172 | A whitespace-free prefix is copied unchanged in front of the anchor of the rest. |
| Slug.WsRunExact | InNovaTechApp.jsx:172 | The greedy match covers a whole whitespace run and stops at the first non-whitespace character. |
| Slug.AnchorAppendRun | InNovaTechApp.jsx:172 | A whole whitespace run at the front, of any length, becomes one hyphen. |
| Slug.AnchorTwoWords | InNovaTechApp.jsx:172 | Two whitespace-free words around one whitespace run give the words joined by a single hyphen. |
| Slug.AnchorSingleSpace | InNovaTechApp.jsx:123 | The label "Conoce TechNova" gets the id "Conoce-TechNova". |
| Slug.AnchorDoubleSpace | InNovaTechApp.jsx:172 | "a  b", with two spaces, becomes "a-b": a run gives one hyphen, not one per character. |
| Slug.AnchorCollision | InNovaTechApp.jsx:172 | Two different labels can share an anchor, for example "Conoce TechNova" spelt with a space and with a tab. `anchor` is not injective on arbitrary strings. |
| Slug.Unanchor | InNovaTechApp.jsx:172 | Turning hyphens back into spaces keeps the length and changes each position independently. |
| Slug.AnchorRoundTrip | InNovaTechApp.jsx:172 | A plainly spelt label (no hyphen, whitespace only as single ordinary spaces) is recovered from its anchor by turning hyphens back into spaces. |
| Slug.AnchorLengthPlain | InNovaTechApp.jsx:172 | A plainly spelt label and its anchor have the same length. |
| Slug.AnchorInjectiveOnPlain | InNovaTechApp.jsx:172 | Different plainly spelt labels get different anchors. |
| Shell.Initial | InNovaTechApp.jsx:41-42 | Both flags start false. Definition only; the body is the model. |
| Shell.Step | InNovaTechApp.jsx:67-78 | The theme button flips `dark` and only `dark`. The menu button flips `open`. A drawer link leaves `open` false. Neither drawer action touches `dark`. |
| Shell.ToggleThemeTwice | InNovaTechApp.jsx:67 | Pressing the theme button twice restores the state. |
| Shell.ToggleMenuTwice | InNovaTechApp.jsx:70 | Pressing the menu button twice restores the state. |
| Shell.NavigateCloses | InNovaTechApp.jsx:78 | From any state, a drawer link click gives a closed drawer with the colour scheme unchanged. Repeating it changes nothing. |
| Shell.ThemeCommutes | InNovaTechApp.jsx:67-78 | The theme toggle commutes with every action, so the two flags are independent. |
| Shell.Run | InNovaTechApp.jsx:41-78 | The state after a sequence of handler calls, applied first to last. Definition only; its properties are the lemmas below. |
| Shell.RunAppend | InNovaTechApp.jsx:41-42 | Running two action sequences one after the other is running their concatenation. |
| Shell.ThemeParity | InNovaTechApp.jsx:67 | After any action sequence, `dark` is the initial scheme flipped once per theme-button press, so it depends only on the parity of the presses. |
| Shell.FlagsIndependent | InNovaTechApp.jsx:41-42 | After any action sequence, the drawer flag does not depend on the initial scheme, and the scheme does not depend on the initial drawer flag. |
| Shell.ClosedAfterNavigate | InNovaTechApp.jsx:78 | Whatever came before, a drawer link clicked last leaves the drawer closed and the scheme as it was. |
| Shell.AllReachable | InNovaTechApp.jsx:41-70 | Every combination of the two flags is reachable from the initial closed, light state in at most two actions. |
| Shell.Render | InNovaTechApp.jsx:44-76 | The root class, the theme icon, the menu icon and the drawer position as functions of the state. Definition only; its properties are the lemmas below. |
| Shell.RenderInjective | InNovaTechApp.jsx:44-76 | Different states render differently: the root class, the two button icons and the drawer position show the whole state. |
| Shell.ToggleThemeView | InNovaTechApp.jsx:44-68 | The theme button changes the root `dark` class and its own icon and nothing else in the view. A second press restores the view. |
| Shell.InitialView | InNovaTechApp.jsx:41-76 | On mount the page is light, shows the moon and menu icons, and hides the drawer. |
| Navigation.Sections | InNovaTechApp.jsx:26-38 | The eleven section labels, in display order. Definition only; the body is the model. |
| Navigation.Fragment | InNovaTechApp.jsx:60 | An href has a fragment exactly when it starts with `#`, and then it is `#` followed by the fragment. |
| Navigation.NavLinks | InNovaTechApp.jsx:59-61 | One link per label, in label order. Each link shows its label, carries the given handler, and has the anchor of its label as its fragment. |
| Navigation.DesktopLinks | InNovaTechApp.jsx:58-64 | The desktop bar: the links of all labels with no click handler. Definition only; its properties are in DesktopMatchesDrawer. |
| Navigation.DrawerLinks | InNovaTechApp.jsx:76-82 | The drawer: the links of all labels, each closing the drawer on click. Definition only; its properties are in DesktopMatchesDrawer. |
| Navigation.PageIds | InNovaTechApp.jsx:88-123 | The app's element ids in tree order: the hero, the card grid, the form, its three controls and the history section. Definition only; its properties are in PageIdsDistinct. |
| Navigation.IndexOf | InNovaTechApp.jsx:60 | Fragment resolution finds the first page id equal to the fragment, and finds none exactly when no id matches. |
| Navigation.Target | InNovaTechApp.jsx:60 | A link leads to a position exactly when its href is `#` plus an id in the list. That position holds the fragment, and no earlier position does. |
| Navigation.Activate | InNovaTechApp.jsx:78 | The state after a link click: a drawer link applies its close handler, a desktop link changes nothing. Definition only; its properties are in ActivateLinks. |
| Navigation.DesktopMatchesDrawer | InNovaTechApp.jsx:59-81 | The desktop bar and the drawer have the same length, labels and hrefs in the same order. Only the drawer links carry the close handler. |
| Navigation.ActivateLinks | InNovaTechApp.jsx:78 | From any state, a drawer link click closes the drawer and keeps the scheme. A desktop link click changes no state. |
| Navigation.AnchorsDistinct | InNovaTechApp.jsx:59-60 | Distinct plainly spelt labels give whitespace-free, pairwise distinct link targets. |
| Navigation.TargetOfLink | InNovaTechApp.jsx:60 | A link leads to the first page element whose id is the anchor of the link's label. |
| Navigation.IndexOfDistinct | InNovaTechApp.jsx:88-123 | Among pairwise distinct ids, each id resolves to its own element. |
| Navigation.CardsLabelAnchor | InNovaTechApp.jsx:97 | The label "Inicio cards" would anchor to the card grid's hand-written id "Inicio-cards". |
| Navigation.CardsLabelPlain | InNovaTechApp.jsx:97 | "Inicio cards" is plainly spelt. |
| Navigation.FormIdsPlain | InNovaTechApp.jsx:107-112 | The form control ids `name`, `email` and `role` are plainly spelt. |
| Navigation.FormIdsFixed | InNovaTechApp.jsx:107-112 | Each form control id is its own anchor, so a label spelt like one of them would scroll to that control. |
| Navigation.NotCardsId | InNovaTechApp.jsx:97 | A plainly spelt label other than "Inicio cards" never anchors to the card grid's id. |
| Navigation.NotFormId | InNovaTechApp.jsx:107-112 | A plainly spelt label other than `name`, `email` and `role` never anchors to a form control id. |
| Navigation.NotReserved | InNovaTechApp.jsx:97-112 | A plainly spelt label that is neither "Inicio cards" nor a form control id anchors to none of the hand-written ids. |
| Navigation.PageIdsDistinct | InNovaTechApp.jsx:88-123 | Suppose the first three labels are plainly spelt and distinct, and none of them is "Inicio cards", `name`, `email` or `role`. Then the seven element ids on the page are pairwise distinct. |
| Navigation.LinkTargetsPresent | InNovaTechApp.jsx:88-123 | Under the same hypothesis, the first three labels' links lead to the hero, the form and the history section. These are the 1st, 3rd and 7th of the app's elements with an id. |
| Navigation.NotAPageId | InNovaTechApp.jsx:88-123 | Suppose the first three labels are plainly spelt. Then a plainly spelt label anchors to none of the app's element ids when it is none of the first three labels, not "Inicio cards", and not a form control id. |
| Navigation.LinkTargetsMissing | InNovaTechApp.jsx:127 | Take distinct, plainly spelt labels where none from the fourth on is "Inicio cards" or a form control id. Then the link of each label from the fourth on resolves to none of the app's element ids. |
| Site.PlainLabelsFirst | InNovaTechApp.jsx:27-30 | The first four section labels are plainly spelt. |
| Site.PlainLabelsMiddle | InNovaTechApp.jsx:31-33 | The next three section labels are plainly spelt. |
| Site.PlainLabelsLast | InNovaTechApp.jsx:34-37 | The last four section labels are plainly spelt. |
| Site.SectionsWellFormed | InNovaTechApp.jsx:26-38 | The eleven labels are plainly spelt and pairwise distinct, as React's list keys require. None is "Inicio cards" or a form control id. |
| Site.SectionAnchorsDistinct | InNovaTechApp.jsx:26-38 | The eleven anchors of this page are whitespace-free and pairwise distinct. |
| Site.SiteLinkTargets | InNovaTechApp.jsx:88-123 | On this page the "Inicio", "Registrarse" and "Conoce TechNova" links lead to the hero, the form and the history section. These are the 1st, 3rd and 7th of the app's elements with an id. |
| Site.SiteDeadLinks | InNovaTechApp.jsx:127 | On this page the other eight links match none of the app's element ids. |

## Left out

- Markup and styling are not modelled. This covers the JSX structure, the Tailwind class strings (including the `md:grid-cols-${cols}` interpolation at line 157), the colours and the inline styles. Only the state-dependent parts of the view are kept: the root class, the two icons and the drawer position.
- The framer-motion animations and the lucide icon components are not modelled. They are foreign library calls, so the icons appear only as an `Icon` value.
- `button.jsx` is not part of this model. It passes its props through to a `<button>`.
- `index.jsx` is not part of this model. It mounts the app into the DOM, which is host I/O.
- The registration form's behaviour (lines 107-117) is not modelled. It has no submit handler, and its `required` validation is done by the browser. Only its controls' ids are kept, in `FormIds`.
- The footer year (line 135) is not modelled, because it comes from the wall clock.
- The card contents and `SectionTemplate`/`SectionGrid` are not modelled. Only their `id` is, through `PageIds`.
- The browser's scrolling to a fragment is modelled only as `IndexOf`. It resolves the fragment to the first element, in tree order, whose id matches. Scrolling itself is host behaviour.
- Navigation.PageIds: only the app's own element ids. Ids of the host page are not included, at least `root` (index.jsx:5), which contains the app and comes first in tree order. A label "root" would scroll to that element, while the model says it leads nowhere. All positions in this model count among the app's elements only.
- Navigation.PageIds is built from the first three entries of a label list. On this page those entries equal the literal strings "Inicio", "Registrarse" and "Conoce TechNova" at lines 88, 104 and 123.
- Slug.IsWs: whitespace is ECMAScript's `\s` for one fixed Unicode version. Changes to the Unicode space separators in later versions are not tracked.
- Navigation.AnchorsDistinct: holds only for plainly spelt labels. Slug.AnchorCollision shows that arbitrary distinct labels can collide.
- Shell.Step: models React state updates as immediate. Batching and re-rendering are not modelled, because each handler sets one flag from the current render's value.
