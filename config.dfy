/**
 * The configuration values the core reads from `config/settings.py`, gathered
 * into one value that callers pass explicitly, plus the BGR colour type.
 */
module Config {
  import opened Wrappers

  /** One pixel as OpenCV stores it: blue, green, red. */
  datatype Bgr = Bgr(b: int, g: int, r: int)

  const Black := Bgr(0, 0, 0)

  /**
   * The settings the core consults. `cropPadding` and `maskMethod` are read
   * with `getattr(settings, name, default)` and are absent from settings.py,
   * hence optional; `backgroundColor` is assigned by main.py at start-up.
   */
  datatype Settings = Settings(
    smoothingAlpha: real,       // SMOOTHING_ALPHA
    borderMargin: int,          // BORDER_MARGIN
    cropPadding: Option<int>,   // CROP_PADDING
    maskMethod: Option<string>, // MASK_METHOD
    outputWidth: nat,           // OUTPUT_RESOLUTION[0]
    outputHeight: nat,          // OUTPUT_RESOLUTION[1]
    minTrackDurationSec: real,  // MIN_TRACK_DURATION_SEC
    videoExt: string,           // VIDEO_EXT
    backgroundColor: Bgr)       // BACKGROUND_COLOR

  /** `getattr(settings, 'CROP_PADDING', 0)` */
  function CropPadding(s: Settings): int {
    s.cropPadding.GetOr(0)
  }

  /** `getattr(settings, 'MASK_METHOD', 'soft')` */
  function MaskMethod(s: Settings): string {
    s.maskMethod.GetOr("soft")
  }

  /** The values config/settings.py assigns, with the colour main.py chose. */
  function RepositorySettings(background: Bgr): Settings {
    Settings(0.2, 5, None, None, 640, 640, 4.0, ".mp4", background)
  }
}
