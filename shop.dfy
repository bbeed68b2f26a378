/** The shop of game.js (buyItem): potions and upgrades that can be bought
    again and again, and three tools that are bought once and then sit in
    the inventory. */
module Shop {
  import opened Elements

  /** The `type` strings buyItem knows, and any other string. */
  datatype Ware = Heal | Damage | Speed | MaxHp | WandTool | AxeTool | SpearTool | Unlisted

  /** The price list; an unknown type costs 0. */
  function Cost(w: Ware): nat {
    match w
    case Heal => 50
    case Damage => 200
    case Speed => 150
    case MaxHp => 300
    case WandTool => 500
    case AxeTool => 400
    case SpearTool => 450
    case Unlisted => 0
  }

  /** The tool item a ware puts in the inventory, if it is a tool. */
  function ToolItem(w: Ware): Option<int> {
    match w
    case WandTool => Some(WAND)
    case AxeTool => Some(AXE)
    case SpearTool => Some(SPEAR)
    case _ => None
  }

  /** What buyItem reads and writes: the player's gold and upgrades, the
      three tool flags and the inventory. */
  datatype Purse = Purse(gold: int, hp: int, maxHp: int, damage: int, speed: int,
                         hasWand: bool, hasAxe: bool, hasSpear: bool, inventory: seq<int>)

  predicate Owns(p: Purse, w: Ware) {
    (w == WandTool && p.hasWand) || (w == AxeTool && p.hasAxe) || (w == SpearTool && p.hasSpear)
  }

  /** buyItem(type): short of gold nothing happens; an owned tool is not sold
      again; otherwise the price is paid and the ware delivered. A potion
      heals 50 up to the maximum, armour raises both the maximum and the
      current health by 50. */
  function Buy(p: Purse, w: Ware): Purse {
    if p.gold < Cost(w) then p
    else if Owns(p, w) then p
    else
      var q := p.(gold := p.gold - Cost(w));
      match w
      case Heal => q.(hp := if p.hp + 50 < p.maxHp then p.hp + 50 else p.maxHp)
      case Damage => q.(damage := p.damage + 10)
      case Speed => q.(speed := p.speed + 1)
      case MaxHp => q.(maxHp := p.maxHp + 50, hp := p.hp + 50)
      case WandTool => q.(hasWand := true, inventory := p.inventory + [WAND])
      case AxeTool => q.(hasAxe := true, inventory := p.inventory + [AXE])
      case SpearTool => q.(hasSpear := true, inventory := p.inventory + [SPEAR])
      case Unlisted => q
  }

  /** Each tool flag says whether that tool is in the inventory, and no
      tool is in it twice. */
  predicate ToolsListed(p: Purse) {
    (p.hasWand <==> WAND in p.inventory) && (p.hasAxe <==> AXE in p.inventory)
    && (p.hasSpear <==> SPEAR in p.inventory)
    && forall i, j :: 0 <= i < j < |p.inventory| && p.inventory[i] in {WAND, AXE, SPEAR}
                      ==> p.inventory[i] != p.inventory[j]
  }

  /** A purchase either changes nothing or takes exactly the price: it never
      takes gold the player does not have and never sells an owned tool. */
  lemma BuyPays(p: Purse, w: Ware)
    ensures p.gold < Cost(w) ==> Buy(p, w) == p
    ensures Owns(p, w) ==> Buy(p, w) == p
    ensures Buy(p, w).gold == p.gold || Buy(p, w).gold == p.gold - Cost(w)
    ensures p.gold >= 0 ==> Buy(p, w).gold >= 0
    ensures Buy(p, w).gold != p.gold ==> p.gold >= Cost(w) && !Owns(p, w)
  {
  }

  /** A tool is bought at most once: after a purchase the player owns it,
      and buying it again changes nothing. */
  lemma {:induction false} ToolBoughtOnce(p: Purse, w: Ware)
    requires ToolItem(w).Some?
    ensures p.gold >= Cost(w) ==> Owns(Buy(p, w), w)
    ensures Buy(Buy(p, w), w) == Buy(p, w)
  {
    if p.gold >= Cost(w) && !Owns(p, w) {
      assert Owns(Buy(p, w), w);
    }
  }

  /** Purchases keep health within its maximum and keep every tool listed
      exactly once when owned. */
  lemma {:induction false} BuyKeepsInvariants(p: Purse, w: Ware)
    requires p.gold >= 0 && p.hp <= p.maxHp && ToolsListed(p)
    ensures Buy(p, w).gold >= 0 && Buy(p, w).hp <= Buy(p, w).maxHp
    ensures ToolsListed(Buy(p, w))
    ensures Buy(p, w).inventory == p.inventory
            || (ToolItem(w).Some? && Buy(p, w).inventory == p.inventory + [ToolItem(w).value])
  {
    var r := Buy(p, w);
    if r.inventory != p.inventory {
      var t := ToolItem(w).value;
      assert r.inventory == p.inventory + [t] && t !in p.inventory;
      forall i, j | 0 <= i < j < |r.inventory| && r.inventory[i] in {WAND, AXE, SPEAR}
        ensures r.inventory[i] != r.inventory[j]
      {
        if j == |p.inventory| {
          assert r.inventory[i] in p.inventory;
        }
      }
    }
  }

  /** A potion heals 50 but never past the maximum, and does nothing at full
      health except take the gold. */
  lemma HealIsCapped(p: Purse)
    requires p.hp <= p.maxHp && p.gold >= Cost(Heal)
    ensures Buy(p, Heal).hp == if p.hp + 50 < p.maxHp then p.hp + 50 else p.maxHp
    ensures p.hp == p.maxHp ==> Buy(p, Heal) == p.(gold := p.gold - 50)
  {
  }
}
