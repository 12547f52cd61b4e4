/**
 The main menu: a fixed list of options and an optional highlighted index.
 How the list widget moves its highlight to the next, previous or last entry
 belongs to the terminal library and is taken as a parameter here.
 */
module MenuPage {
  import opened Wrappers

  /** The options the main menu offers. */
  datatype MenuOption = Type | Quit

  /** The menu's options and its highlighted index, if any. */
  datatype Menu = Menu(options: seq<MenuOption>, selected: Option<nat>)

  /** The highlight movements the menu keys ask for. */
  datatype NavMove = SelectNone | SelectFirst | SelectNext | SelectPrevious | SelectLast

  /** A new menu offers Type then Quit, with the first option highlighted. */
  function New(): (m: Menu)
    ensures |m.options| == 2 && m.options[0] == Type && m.options[1] == Quit
    ensures m.selected == Some(0)
  {
    Menu([Type, Quit], Some(0))
  }

  /** Moves the highlight. Clearing it and jumping to the first entry are
      fixed; the next, previous and last movements are whatever the list
      widget `nav` computes from the current highlight. The options never
      change. */
  function Navigate(m: Menu, move: NavMove, nav: (NavMove, Option<nat>) -> Option<nat>): (r: Menu)
    ensures r.options == m.options
    ensures move == SelectNone ==> r.selected == None
    ensures move == SelectFirst ==> r.selected == Some(0)
    ensures move != SelectNone && move != SelectFirst ==> r.selected == nav(move, m.selected)
  {
    match move
    case SelectNone => m.(selected := None)
    case SelectFirst => m.(selected := Some(0))
    case _ => m.(selected := nav(move, m.selected))
  }
}
