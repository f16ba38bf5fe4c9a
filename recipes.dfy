/** The recipe catalogue: the classes `OvoFrito`, `OvoMexido`, `OvoCozido` and the three
    `OvoCozidoBase` variants flattened into one datatype of recipe kinds, each with its
    record of constant properties, and the two menu lookup tables of the navigation
    shell. */
module Recipes {
  import opened Wrappers
  import opened ConsoleKeys
  import Countdown

  /** The yolk firmness of a boiled egg (`TipoGema`). */
  datatype Yolk = Soft | Medium | Hard

  /** The recipe kinds: fried, scrambled, the boiled-egg category that only opens the
      yolk menu, and a boiled egg of a given yolk. */
  datatype Recipe = Fried | Scrambled | BoiledMenu | Boiled(yolk: Yolk)

  /** The properties `Nome`, `OndeFazer`, `Temperatura`, `TempoPreparo` (seconds) and
      `Dicas`. */
  datatype RecipeRecord = RecipeRecord(
    name: string, location: string, temperature: string, seconds: nat, tips: string)

  /** The word naming a yolk firmness. */
  function YolkWord(y: Yolk): (w: string) {
    match y
    case Soft => "Mole"
    case Medium => "Média"
    case Hard => "Dura"
  }

  /** The cooking time of a boiled egg of each yolk firmness. */
  function YolkSeconds(y: Yolk): (d: nat) {
    match y
    case Soft => 240
    case Medium => 360
    case Hard => 480
  }

  /** `Nome`: a boiled egg's name is a fixed prefix followed by its yolk word. */
  function Name(r: Recipe): (n: string) {
    match r
    case Fried => "Ovo Frito"
    case Scrambled => "Ovo Mexido"
    case BoiledMenu => "Ovo Cozido"
    case Boiled(y) => "Ovo Cozido - Gema " + YolkWord(y)
  }

  /** `OndeFazer` */
  function Location(r: Recipe): (l: string) {
    match r
    case Fried => "Frigideira"
    case Scrambled => "Frigideira"
    case BoiledMenu => ""
    case Boiled(_) => "Panela com água"
  }

  /** `Temperatura` */
  function Temperature(r: Recipe): (t: string) {
    match r
    case Fried => "Fogo médio"
    case Scrambled => "Fogo baixo"
    case BoiledMenu => ""
    case Boiled(_) => "Água fervente"
  }

  /** `TempoPreparo`, in seconds */
  function Seconds(r: Recipe): (d: nat) {
    match r
    case Fried => 120
    case Scrambled => 240
    case BoiledMenu => 0
    case Boiled(y) => YolkSeconds(y)
  }

  /** `Dicas` */
  function Tips(r: Recipe): (t: string) {
    match r
    case Fried =>
      "Use manteiga ou óleo na frigideira, frite até a clara firmar e vire o ovo com a ajuda de uma espatula."
    case Scrambled => "Mexa constantemente para manter cremoso."
    case BoiledMenu => ""
    case Boiled(_) => "Coloque os ovos com cuidado e acompanhe o tempo."
  }

  /** The record of a recipe's properties. */
  function Info(r: Recipe): (info: RecipeRecord) {
    RecipeRecord(Name(r), Location(r), Temperature(r), Seconds(r), Tips(r))
  }

  /** The top-level menu: "1" boiled (category), "2" fried, "3" scrambled; "0" and
      everything else select nothing, which leaves the program. */
  function LookupTopLevel(op: string): (r: Option<Recipe>)
    ensures r.Some? <==> op == "1" || op == "2" || op == "3"
    ensures r.Some? ==> r.value == BoiledMenu || r.value == Fried || r.value == Scrambled
  {
    match op
    case "1" => Some(BoiledMenu)
    case "2" => Some(Fried)
    case "3" => Some(Scrambled)
    case _ => None
  }

  /** The yolk menu: "1" soft, "2" medium, "3" hard; "0" and everything else select
      nothing, which goes back to the top-level menu. */
  function LookupYolk(op: string): (r: Option<Recipe>)
    ensures r.Some? <==> op == "1" || op == "2" || op == "3"
    ensures r.Some? ==> r.value.Boiled?
  {
    match op
    case "1" => Some(Boiled(Soft))
    case "2" => Some(Boiled(Medium))
    case "3" => Some(Boiled(Hard))
    case _ => None
  }

  /** The confirmation screen of a recipe: the timer starts, with the recipe's duration,
      only when the key read is Enter; any other key goes back without a timer. */
  function Confirm(r: Recipe, key: Key): (timer: Option<nat>)
    ensures timer.Some? <==> key == Enter
    ensures timer.Some? ==> timer.value == Seconds(r)
  {
    if key == Enter then Some(Seconds(r)) else None
  }

  /** One pass through the menus: a top-level option, then for the boiled-egg category a
      yolk option. */
  function Choose(top: string, yolk: string): (r: Option<Recipe>)
    ensures r.Some? <==>
      top == "2" || top == "3" || (top == "1" && (yolk == "1" || yolk == "2" || yolk == "3"))
    ensures r.Some? ==> r.value != BoiledMenu && Seconds(r.value) > 0
  {
    match LookupTopLevel(top)
    case None => None
    case Some(BoiledMenu) => LookupYolk(yolk)
    case Some(r) => Some(r)
  }

  /** A recipe reached through the menus starts a timer exactly when Enter is pressed on
      its screen; that timer has a positive duration, so it enters the countdown loop,
      and left alone it counts down to the completion message drawing one frame per
      second. */
  lemma ChosenRecipeCountsDown(top: string, yolk: string, key: Key)
    requires Choose(top, yolk).Some?
    ensures var r := Choose(top, yolk).value;
      Confirm(r, key).Some? <==> key == Enter
    ensures var r := Choose(top, yolk).value;
      key == Enter ==>
        var d := Confirm(r, key).value;
        && d == Seconds(r) && d > 0
        && Countdown.Start(d).outcome == Countdown.Running
        && Countdown.Run(Countdown.Start(d), Countdown.Idle(d)).outcome == Countdown.Finished
        && |Countdown.Frames(Countdown.Start(d), Countdown.Idle(d))| == d
  {
    if key == Enter {
      Countdown.FullCountdown(Seconds(Choose(top, yolk).value));
    }
  }

  // ---------------------------------------------------------------------------
  // The printed menus

  /** The lines "1 - Ovo Cozido", "2 - Ovo Frito", "3 - Ovo Mexido" of the top-level
      menu, as (option, label) pairs. */
  const TopLevelMenu: seq<(string, string)> := [("1", "Ovo Cozido"), ("2", "Ovo Frito"), ("3", "Ovo Mexido")]

  /** The lines "1 - Gema Mole (4 min)", "2 - Gema Média (6 min)", "3 - Gema Dura (8 min)"
      of the yolk menu, as (option, yolk word, minutes) triples. */
  const YolkMenu: seq<(string, string, nat)> := [("1", "Mole", 4), ("2", "Média", 6), ("3", "Dura", 8)]

  /** Every option printed on the top-level menu selects the recipe it names, and the
      printed options are exactly the ones the lookup accepts. */
  lemma TopLevelMenuAgrees(op: string)
    ensures LookupTopLevel(op).Some? <==> exists i :: 0 <= i < |TopLevelMenu| && TopLevelMenu[i].0 == op
    ensures forall i :: 0 <= i < |TopLevelMenu| && TopLevelMenu[i].0 == op ==>
      Name(LookupTopLevel(op).value) == TopLevelMenu[i].1
  {
    if op == "1" {
      assert TopLevelMenu[0].0 == op;
    } else if op == "2" {
      assert TopLevelMenu[1].0 == op;
    } else if op == "3" {
      assert TopLevelMenu[2].0 == op;
    }
  }

  /** Every option printed on the yolk menu selects a boiled egg whose name ends with the
      printed yolk word and whose cooking time is the printed number of minutes. */
  lemma YolkMenuAgrees(op: string)
    ensures LookupYolk(op).Some? <==> exists i :: 0 <= i < |YolkMenu| && YolkMenu[i].0 == op
    ensures forall i :: 0 <= i < |YolkMenu| && YolkMenu[i].0 == op ==>
      var r := LookupYolk(op).value;
      Name(r) == "Ovo Cozido - Gema " + YolkMenu[i].1 && Seconds(r) == 60 * YolkMenu[i].2
  {
    if op == "1" {
      assert YolkMenu[0].0 == op;
    } else if op == "2" {
      assert YolkMenu[1].0 == op;
    } else if op == "3" {
      assert YolkMenu[2].0 == op;
    }
  }

  // ---------------------------------------------------------------------------
  // Durations and names

  /** Every catalogue duration is a whole number of minutes; only the boiled-egg category
      has none, and the firmer the yolk, the longer the egg boils. */
  lemma Durations(r: Recipe)
    ensures Seconds(r) % 60 == 0
    ensures Seconds(r) == 0 <==> r == BoiledMenu
    ensures YolkSeconds(Soft) < YolkSeconds(Medium) < YolkSeconds(Hard)
  {
  }

  /** Different recipes have different names. */
  lemma NamesDistinct(a: Recipe, b: Recipe)
    requires Name(a) == Name(b)
    ensures a == b
  {
    var p := "Ovo Cozido - Gema ";
    if a.Boiled? && b.Boiled? {
      assert Name(a)[|p|..] == YolkWord(a.yolk);
      assert Name(b)[|p|..] == YolkWord(b.yolk);
      assert YolkWord(a.yolk) == YolkWord(b.yolk);
      assert YolkWord(a.yolk)[0] == YolkWord(b.yolk)[0];
    } else if !a.Boiled? && !b.Boiled? {
      assert |Name(a)| == |Name(b)| && Name(a)[4] == Name(b)[4];
    }
  }

  /** Top-level "1" then yolk "2" starts a 360-second timer, top-level "2" a 120-second
      one, and top-level "0" selects nothing whatever follows. */
  lemma Navigation()
    ensures Choose("1", "2") == Some(Boiled(Medium)) && Confirm(Boiled(Medium), Enter) == Some(360)
    ensures Choose("2", "") == Some(Fried) && Confirm(Fried, Enter) == Some(120)
    ensures Choose("3", "") == Some(Scrambled) && Confirm(Scrambled, Enter) == Some(240)
    ensures forall y :: Choose("0", y) == None
    ensures Choose("1", "0") == None
  {
  }
}
