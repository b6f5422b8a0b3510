/**
 * Where the three front ends agree and where they part: the same button
 * reaches the same processor call in all of them only for the landscape
 * resize sizes.
 */
module RouterAgreement {
  import opened Transport
  import SimpleTelegramBot
  import TelegramBot
  import WebhookServer
  import Strings

  /** Each landscape size button resizes to the same box in all three front ends. */
  lemma LandscapeResizeAgrees(path: string, token: string)
    requires SizeTable(token, false).Some?
    ensures var d := SizeTable(token, false).value;
            && SimpleTelegramBot.RouteOf(path, token) == Process(ResizeTask, Resize(path, d.width, d.height), false)
            && TelegramBot.RouteOf(path, token) == Process(ResizeTask, Resize(path, d.width, d.height), false)
            && WebhookServer.RouteOf(path, token) == Process(ResizeTask, Resize(path, d.width, d.height), false)
  {
    assert SizeTable(token, true) == SizeTable(token, false);
  }

  /** The portrait button resizes to 720x1280 in the two long-running bots and does nothing behind the webhook. */
  lemma MobileResizeDiffers(path: string)
    ensures SimpleTelegramBot.RouteOf(path, "resize_mobile") == Process(ResizeTask, Resize(path, 720, 1280), false)
    ensures TelegramBot.RouteOf(path, "resize_mobile") == Process(ResizeTask, Resize(path, 720, 1280), false)
    ensures WebhookServer.RouteOf(path, "resize_mobile") == Ignore
  {
  }

  /**
   * "Remove BG" calls remove.bg in the polling bot and the webhook, but its
   * processor's own `remove_background` in the other bot (a method the AI
   * processor of ai_apis.py does not define).
   */
  lemma RemoveBackgroundDiffers(path: string)
    ensures SimpleTelegramBot.RouteOf(path, "remove_bg") == Process(RemoveBackgroundTask, RemoveBackgroundRemote(path), false)
    ensures WebhookServer.RouteOf(path, "remove_bg") == Process(RemoveBackgroundTask, RemoveBackgroundRemote(path), false)
    ensures TelegramBot.RouteOf(path, "remove_bg") == Process(RemoveBackgroundTask, RemoveBackground(path), false)
  {
  }

  /**
   * The PNG button: the polling bot converts to `PNG` and sends a photo,
   * the other bot converts to `png` and sends a document, and the webhook
   * does nothing.
   */
  lemma PngDeliveryDiffers(path: string)
    ensures SimpleTelegramBot.RouteOf(path, "convert_png") == Process(ConvertTask, ConvertFormat(path, "PNG"), false)
    ensures TelegramBot.RouteOf(path, TelegramBot.ConvertPrefix + "png") == Process(ConvertTask, ConvertFormat(path, "png"), true)
    ensures WebhookServer.RouteOf(path, "convert_png") == Ignore
  {
    var f := "png";
    assert Strings.Lower(f) == f by {
      assert forall i :: 0 <= i < |f| ==> Strings.Lower(f)[i] == f[i];
    }
    TelegramBot.ConvertTokenRoute(path, TelegramBot.ConvertPrefix + f, f);
  }

  /** Sizes listed smallest first, as Telegram lists them. */
  predicate Ascending(photos: seq<PhotoSize>) {
    forall j, k :: 0 <= j < k < |photos| ==> Area(photos[j]) < Area(photos[k])
  }

  /**
   * `photo[-1]` of one front end and the largest-area choice of the other
   * two pick the same size when the sizes come smallest first.
   */
  lemma {:induction false} LastIsLargestWhenAscending(photos: seq<PhotoSize>)
    requires photos != [] && Ascending(photos)
    ensures Largest(photos) == |photos| - 1
  {
    var i := |photos| - 1;
    assert forall j :: 0 <= j < i ==> Area(photos[j]) < Area(photos[i]);
    LargestUnique(photos, i);
  }

  /** Out of order, the two choices can differ: here the first size is the largest. */
  lemma LastNeedNotBeLargest()
    ensures var photos := [PhotoSize("big", 2, 2), PhotoSize("small", 1, 1)];
            Largest(photos) == 0 && photos[Largest(photos)] != photos[|photos| - 1]
  {
    var photos := [PhotoSize("big", 2, 2), PhotoSize("small", 1, 1)];
    assert Area(photos[1]) < Area(photos[0]);
  }
}
