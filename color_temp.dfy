/** The colour-temperature overlay of entrypoints/content/color-temp.ts: a
    full-page element with id `eye-protect-color-temp-overlay` whose
    background is an orange of opacity proportional to the intensity. The
    page's elements with that id are recorded, in document order, by their
    opacity. */
module ColorTemp {
  import opened Dom

  /** `(intensity / 100) * 0.4`, in exact arithmetic. */
  function Opacity(intensity: int): real {
    (intensity as real / 100.0) * 0.4
  }

  /** `applyColorTemp(enabled, intensity, masterEnabled)`: `removeColorTemp`,
      then a new overlay when both switches are on. */
  function ApplyOverlay(overlays: seq<real>, enabled: bool, intensity: int, masterEnabled: bool): seq<real> {
    var removed := RemoveFirst(overlays);
    if !enabled || !masterEnabled then removed else removed + [Opacity(intensity)]
  }

  // ---------------------------------------------------------------------
  // Opacity

  /** Intensities 0 to 100 give opacities 0 to 0.4. */
  lemma OpacityRange(intensity: int)
    requires 0 <= intensity <= 100
    ensures 0.0 <= Opacity(intensity) <= 0.4
    ensures intensity == 0 ==> Opacity(intensity) == 0.0
    ensures intensity == 100 ==> Opacity(intensity) == 0.4
  {
  }

  /** The map is linear and invertible: the intensity is 250 times the
      opacity, so a higher intensity always gives a stronger overlay. */
  lemma OpacityInverse(i: int, j: int)
    ensures Opacity(i) * 250.0 == i as real
    ensures i < j ==> Opacity(i) < Opacity(j)
  {
  }

  /** No clamping: intensities outside 0 to 100 give opacities outside 0 to
      0.4. */
  lemma OpacityUnclamped()
    ensures Opacity(150) == 0.6 && Opacity(-50) == -0.2
  {
  }

  // ---------------------------------------------------------------------
  // The overlay lifecycle

  /** From a page with at most one overlay, `applyColorTemp` leaves exactly
      one overlay of the requested opacity when both switches are on, and none
      otherwise. */
  lemma ApplyExact(overlays: seq<real>, enabled: bool, intensity: int, masterEnabled: bool)
    requires |overlays| <= 1
    ensures ApplyOverlay(overlays, enabled, intensity, masterEnabled)
            == if enabled && masterEnabled then [Opacity(intensity)] else []
  {
  }

  /** There is never more than one overlay. */
  lemma AtMostOneOverlay(overlays: seq<real>, enabled: bool, intensity: int, masterEnabled: bool)
    requires |overlays| <= 1
    ensures |ApplyOverlay(overlays, enabled, intensity, masterEnabled)| <= 1
    ensures |RemoveFirst(overlays)| == 0
  {
  }

  /** Applying twice with the same arguments is applying once. */
  lemma ApplyIdempotent(overlays: seq<real>, enabled: bool, intensity: int, masterEnabled: bool)
    requires |overlays| <= 1
    ensures var once := ApplyOverlay(overlays, enabled, intensity, masterEnabled);
      ApplyOverlay(once, enabled, intensity, masterEnabled) == once
  {
    ApplyExact(overlays, enabled, intensity, masterEnabled);
    ApplyExact(ApplyOverlay(overlays, enabled, intensity, masterEnabled), enabled, intensity, masterEnabled);
  }

  /** The last application decides the state, whatever came before. */
  lemma LastApplyWins(overlays: seq<real>, e1: bool, i1: int, m1: bool, e2: bool, i2: int, m2: bool)
    requires |overlays| <= 1
    ensures ApplyOverlay(ApplyOverlay(overlays, e1, i1, m1), e2, i2, m2) == ApplyOverlay([], e2, i2, m2)
  {
    ApplyExact(overlays, e1, i1, m1);
    ApplyExact(ApplyOverlay(overlays, e1, i1, m1), e2, i2, m2);
  }

  /** `removeColorTemp` is idempotent. */
  lemma RemoveIdempotent(overlays: seq<real>)
    requires |overlays| <= 1
    ensures RemoveFirst(RemoveFirst(overlays)) == RemoveFirst(overlays) == []
  {
  }

  /** The overlays of the page the content script runs in. */
  class OverlayPage {
    var overlays: seq<real>

    predicate Valid()
      reads this
    {
      |overlays| <= 1
    }

    constructor()
      ensures overlays == [] && Valid()
    {
      overlays := [];
    }

    /** `removeColorTemp()`. */
    method RemoveColorTemp()
      modifies this
      ensures overlays == RemoveFirst(old(overlays))
    {
      if overlays != [] {
        overlays := overlays[1..];
      }
    }

    /** `applyColorTemp(enabled, intensity, masterEnabled)`. */
    method ApplyColorTemp(enabled: bool, intensity: int, masterEnabled: bool)
      requires Valid()
      modifies this
      ensures overlays == ApplyOverlay(old(overlays), enabled, intensity, masterEnabled)
      ensures Valid()
    {
      RemoveColorTemp();
      if !enabled || !masterEnabled {
        return;
      }
      var opacity := (intensity as real / 100.0) * 0.4;
      overlays := overlays + [opacity];
    }
  }
}
