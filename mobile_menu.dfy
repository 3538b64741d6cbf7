/** The mobile menu: a navigation panel that is open while it carries the
    class "active", and a trigger button whose glyph shows ✕ while the panel
    is open and ☰ while it is closed. The trigger flips the panel; a click
    on any link inside it closes it. */
module MobileMenu {
  import opened ClassList

  const Active := "active"
  const CloseGlyph := "✕"
  const OpenGlyph := "☰"

  /** The trigger's glyph for an open or closed panel. */
  function GlyphFor(open: bool): (glyph: string)
  {
    if open then CloseGlyph else OpenGlyph
  }

  /** Corollary of `ClassList.Toggle` and `GlyphFor`: the open flag after a trigger click is the negation of the one before,
      and the glyph then names the new state. */
  lemma TriggerFlips(panel: ClassSet)
    ensures var after := Toggle(panel, Active);
      (Active in after <==> Active !in panel) &&
      (GlyphFor(Active in after) == CloseGlyph <==> Active !in panel) &&
      (GlyphFor(Active in after) == OpenGlyph <==> Active in panel)
  {
  }

  /** The navigation panel and its trigger, when the page has both. */
  class Menu {
    /** The navigation panel's class list. */
    var panel: ClassSet
    /** The trigger's content. */
    var glyph: string

    predicate IsOpen()
      reads this
    {
      Active in panel
    }

    /** The glyph shows the panel's state. */
    predicate GlyphAgrees()
      reads this
    {
      glyph == GlyphFor(IsOpen())
    }

    constructor (panel: ClassSet, glyph: string)
      ensures this.panel == panel && this.glyph == glyph
    {
      this.panel := panel;
      this.glyph := glyph;
    }

    /** A click on the trigger. */
    method TriggerClick()
      modifies this
      ensures panel == Toggle(old(panel), Active)
      ensures IsOpen() == !old(IsOpen())
      ensures panel - {Active} == old(panel) - {Active}
      ensures glyph == (if IsOpen() then CloseGlyph else OpenGlyph)
      ensures GlyphAgrees()
    {
      panel := Toggle(panel, Active);
      glyph := GlyphFor(Active in panel);
    }

    /** A click on a link in the panel: closed, whatever the state before. */
    method LinkClick()
      modifies this
      ensures !IsOpen() && glyph == OpenGlyph
      ensures panel == old(panel) - {Active}
      ensures GlyphAgrees()
    {
      panel := Remove(panel, Active);
      glyph := OpenGlyph;
    }
  }

  /** Two trigger clicks restore the panel, and restore the glyph whenever it
      agreed with the panel before. */
  method TriggerTwice(m: Menu)
    modifies m
    ensures m.panel == old(m.panel)
    ensures old(m.GlyphAgrees()) ==> m.glyph == old(m.glyph)
    ensures m.GlyphAgrees()
  {
    m.TriggerClick();
    m.TriggerClick();
    ToggleTwice(old(m.panel), Active);
  }
}
