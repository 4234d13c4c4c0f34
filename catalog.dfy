/** The static menu and waiter roster shared by the front end and the back end. */
module Catalog {
  import opened CafeTypes

  const MENU_ITEMS: seq<MenuItem> := [
    MenuItem(1, "Espresso", 4), MenuItem(2, "Latte", 6), MenuItem(3, "Cappuccino", 7),
    MenuItem(4, "Americano", 5), MenuItem(5, "Mocha", 8), MenuItem(6, "Macchiato", 5),
    MenuItem(7, "Iced Coffee", 6), MenuItem(8, "Cold Brew", 9), MenuItem(9, "Sandwich", 10),
    MenuItem(10, "Burger", 12), MenuItem(11, "Pizza Slice", 11), MenuItem(12, "Pasta", 13),
    MenuItem(13, "Salad", 7), MenuItem(14, "Fries", 6), MenuItem(15, "Taco", 9),
    MenuItem(16, "Wrap", 8), MenuItem(17, "Cake Slice", 5), MenuItem(18, "Cookie", 3),
    MenuItem(19, "Muffin", 4), MenuItem(20, "Smoothie", 7)]

  const WAITER_NAMES: seq<string> := ["Amit", "Riya", "Karan", "Priya", "Sam"]

  /** Every menu item takes a positive time, and the ids run 1 to 20 in menu order, so they are distinct. */
  lemma MenuWellFormed()
    ensures forall i :: 0 <= i < |MENU_ITEMS| ==> MENU_ITEMS[i].prepTime > 0 && MENU_ITEMS[i].id == i + 1
  {
  }

  /** The roster is non-empty and its names are distinct (they differ in their first letter). */
  lemma RosterWellFormed()
    ensures WAITER_NAMES != []
    ensures forall i, j :: 0 <= i < j < |WAITER_NAMES| ==> WAITER_NAMES[i] != WAITER_NAMES[j]
  {
    assert forall i :: 0 <= i < |WAITER_NAMES| ==> WAITER_NAMES[i] != [] && WAITER_NAMES[i][0] == "ARKPS"[i];
  }
}
